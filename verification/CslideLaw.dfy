/**
 What a selection round does, told without its passes, rows and ledgers: from which buckets pages move,
 which of them go first, and how much moves.
 */
module CslideLaw {
  import opened Pages
  import opened PageStores
  import opened FlowControl
  import opened FlowSafety
  import opened NodePairs
  import opened PassSpec
  import opened CslideRound
  import opened CslideFilter

  // ----- the buckets of a pass

  /** Buckets with counts in [lo, hi) on one node, and whether the most used pages go first. */
  datatype Region = Region(node: int, lo: int, hi: int, hottestFirst: bool)

  /** Hot pages come from the cold node, the most used first. */
  function HotRegion(cfg: Config, j: int): Region
    requires 0 <= j < |cfg.pairs|
  {
    Region(cfg.pairs[j].coldNode, cfg.threshold, cfg.maxCount + 1, true)
  }

  /** Prefetched pages come from the cold node too, from below the threshold, the most used first. */
  function PrefetchRegion(cfg: Config, j: int): Region
    requires 0 <= j < |cfg.pairs|
  {
    Region(cfg.pairs[j].coldNode, 0, cfg.threshold, true)
  }

  /** Cold pages come from the hot node, from below the threshold, the least used first. */
  function ColdRegion(cfg: Config, j: int): Region
    requires 0 <= j < |cfg.pairs|
  {
    Region(cfg.pairs[j].hotNode, 0, cfg.threshold, false)
  }

  function RegionOf(cfg: Config, pass: Pass, j: int): Region
    requires 0 <= j < |cfg.pairs|
  {
    match pass
    case HotMove => HotRegion(cfg, j)
    case Prefetch => PrefetchRegion(cfg, j)
    case ColdMove => ColdRegion(cfg, j)
  }

  /** The threshold tells hot counts from the others, as the setting means it. */
  lemma RegionsByCount(cfg: Config, j: int, c: int)
    requires 0 <= j < |cfg.pairs| && 0 <= c <= cfg.maxCount
    ensures HotRegion(cfg, j).lo <= c < HotRegion(cfg, j).hi <==> HotCount(c, cfg.threshold)
    ensures PrefetchRegion(cfg, j).lo <= c < PrefetchRegion(cfg, j).hi <==> !HotCount(c, cfg.threshold)
    ensures ColdRegion(cfg, j).lo <= c < ColdRegion(cfg, j).hi <==> !HotCount(c, cfg.threshold)
  {
  }

  predicate InCells(cfg: Config, g: Region, c: int, p: int) {
    g.lo <= c < g.hi && 0 <= p < |cfg.pids|
  }

  /** The pages of process number `p` with count `c` on the region's node. */
  function CellAt(ls: Lists, cfg: Config, g: Region, c: int, p: int): seq<PageRef>
    requires 0 <= p < |cfg.pids|
  {
    ListAt(ls, Bucket(cfg.pids[p], c, g.node))
  }

  /** By count first, then by the order of the processes. */
  predicate Earlier(g: Region, c: int, p: int, d: int, q: int) {
    (if g.hottestFirst then c > d else c < d) || (c == d && p < q)
  }

  function RowBytes(ls: Lists, cfg: Config, node: int, c: int, n: int): nat
    requires 0 <= n <= |cfg.pids|
  {
    if n == 0 then 0 else RowBytes(ls, cfg, node, c, n - 1) + Total(ListAt(ls, Bucket(cfg.pids[n - 1], c, node)))
  }

  /** Bytes of all working processes' pages with counts in [lo, hi) on `node`. */
  function RegionBytes(ls: Lists, cfg: Config, node: int, lo: int, hi: int): nat
    decreases hi - lo
  {
    if lo >= hi then 0 else RegionBytes(ls, cfg, node, lo, hi - 1) + RowBytes(ls, cfg, node, hi - 1, |cfg.pids|)
  }

  function DemandOf(ls: Lists, cfg: Config, g: Region): nat {
    RegionBytes(ls, cfg, g.node, g.lo, g.hi)
  }

  // ----- the law of one pass

  /** `left` is what remains of `all` when pages are taken from its front. */
  predicate Shortened(all: seq<PageRef>, left: seq<PageRef>) {
    |left| <= |all| && left == all[|all| - |left|..]
  }

  /** The first bucket of the region, in order, that still has pages. */
  ghost predicate NextLeft(ls: Lists, cfg: Config, g: Region, c: int, p: int) {
    && InCells(cfg, g, c, p) && CellAt(ls, cfg, g, c, p) != []
    && forall d, q :: InCells(cfg, g, d, q) && Earlier(g, d, q, c, p) ==> CellAt(ls, cfg, g, d, q) == []
  }

  /** Pages leave from the front of the buckets. */
  ghost predicate FromFront(ls0: Lists, ls: Lists, cfg: Config, g: Region) {
    forall c, p :: InCells(cfg, g, c, p) ==> Shortened(CellAt(ls0, cfg, g, c, p), CellAt(ls, cfg, g, c, p))
  }

  /** A bucket loses a page only when every earlier bucket is empty. */
  ghost predicate InOrder(ls0: Lists, ls: Lists, cfg: Config, g: Region) {
    forall c, p, d, q ::
      InCells(cfg, g, c, p) && InCells(cfg, g, d, q) && Earlier(g, c, p, d, q)
      && |CellAt(ls, cfg, g, d, q)| < |CellAt(ls0, cfg, g, d, q)|
      ==> CellAt(ls, cfg, g, c, p) == []
  }

  /** As many bytes move as the charge allows: everything when all is charged, and otherwise the next page
      would be too much. */
  ghost predicate AsMuch(ls0: Lists, ls: Lists, cfg: Config, g: Region, charge: nat) {
    var moved := DemandOf(ls0, cfg, g) - DemandOf(ls, cfg, g);
    && 0 <= moved <= charge
    && (charge >= DemandOf(ls0, cfg, g) ==> DemandOf(ls, cfg, g) == 0)
    && forall c, p :: NextLeft(ls, cfg, g, c, p) ==> moved + CellAt(ls, cfg, g, c, p)[0].size > charge
  }

  ghost predicate PassLaw(ls0: Lists, ls: Lists, cfg: Config, g: Region, charge: nat) {
    FromFront(ls0, ls, cfg, g) && InOrder(ls0, ls, cfg, g) && AsMuch(ls0, ls, cfg, g, charge)
  }

  // ----- rows and counts

  /** The row in which a pass looks at a count. */
  function RowOf(cfg: Config, pass: Pass, c: int): int {
    match pass
    case HotMove => cfg.maxCount - c
    case Prefetch => cfg.threshold - 1 - c
    case ColdMove => c
  }

  lemma RowIs(cfg: Config, pass: Pass, j: int, c: int, p: int)
    requires ValidConfig(cfg) && 0 <= j < |cfg.pairs|
    ensures InCells(cfg, RegionOf(cfg, pass, j), c, p) <==> InPass(cfg, pass, j, RowOf(cfg, pass, c), p)
    ensures 0 <= p < |cfg.pids| ==>
      Src(cfg, pass, j, RowOf(cfg, pass, c), p) == Bucket(cfg.pids[p], c, RegionOf(cfg, pass, j).node)
    ensures forall r :: InPass(cfg, pass, j, r, p) ==> RowOf(cfg, pass, CountAt(cfg, pass, r)) == r
  {
  }

  lemma RowOrder(cfg: Config, pass: Pass, j: int, c: int, p: int, d: int, q: int)
    requires 0 <= j < |cfg.pairs|
    ensures Earlier(RegionOf(cfg, pass, j), c, p, d, q) <==> Reached(RowOf(cfg, pass, d), q, RowOf(cfg, pass, c), p)
  {
  }

  // ----- what is offered, and in which order

  lemma {:induction false} BeforeGrows(ls: Lists, cfg: Config, pass: Pass, j: int, r: int, p: int, r': int, p': int)
    requires 0 <= j < |cfg.pairs| && 0 <= r && 0 <= p <= |cfg.pids| && 0 <= p' <= |cfg.pids|
    requires r < r' || (r == r' && p <= p')
    ensures Before(ls, cfg, pass, j, r, p) <= Before(ls, cfg, pass, j, r', p')
    decreases r', p'
  {
    hide Src;
    if r == r' && p == p' {
    } else if p' > 0 {
      BeforeGrows(ls, cfg, pass, j, r, p, r', p' - 1);
    } else {
      BeforeGrows(ls, cfg, pass, j, r, p, r' - 1, |cfg.pids|);
    }
  }

  lemma BeforeStep(ls: Lists, cfg: Config, pass: Pass, j: int, r: int, p: int)
    requires 0 <= j < |cfg.pairs| && 0 <= r && 0 <= p < |cfg.pids|
    ensures Before(ls, cfg, pass, j, r, p + 1) == Before(ls, cfg, pass, j, r, p) + ListAt(ls, Src(cfg, pass, j, r, p))
  {
  }

  lemma PrefixTotal(a: seq<PageRef>, b: seq<PageRef>)
    requires a <= b
    ensures Total(a) <= Total(b)
  {
    TotalSplit(b, |a|);
  }

  /** Of two buckets of the region, all pages of the earlier one are offered before those of the other. */
  lemma OfferedOrder(ls: Lists, cfg: Config, pass: Pass, j: int, c: int, p: int, d: int, q: int)
    returns (a: seq<PageRef>, b: seq<PageRef>, e: seq<PageRef>)
    requires ValidConfig(cfg) && 0 <= j < |cfg.pairs| && 0 <= Rows(cfg, pass)
    requires var g := RegionOf(cfg, pass, j); InCells(cfg, g, c, p) && InCells(cfg, g, d, q) && Earlier(g, c, p, d, q)
    ensures var g := RegionOf(cfg, pass, j);
      Offered(ls, cfg, pass, j) == a + CellAt(ls, cfg, g, c, p) + b + CellAt(ls, cfg, g, d, q) + e
  {
    hide Before;
    var g := RegionOf(cfg, pass, j);
    var r, r' := RowOf(cfg, pass, c), RowOf(cfg, pass, d);
    RowIs(cfg, pass, j, c, p);
    RowIs(cfg, pass, j, d, q);
    RowOrder(cfg, pass, j, c, p, d, q);
    var x, y := CellAt(ls, cfg, g, c, p), CellAt(ls, cfg, g, d, q);
    BeforeStep(ls, cfg, pass, j, r, p);
    BeforeStep(ls, cfg, pass, j, r', q);
    BeforeGrows(ls, cfg, pass, j, r, p + 1, r', q);
    BeforeGrows(ls, cfg, pass, j, r', q + 1, Rows(cfg, pass), 0);
    a := Before(ls, cfg, pass, j, r, p);
    var mid, all := Before(ls, cfg, pass, j, r', q), Offered(ls, cfg, pass, j);
    b := mid[|a + x|..];
    e := all[|mid + y|..];
    assert mid == a + x + b && all == mid + y + e;
  }

  lemma {:induction false} BeforeMembers(ls: Lists, cfg: Config, pass: Pass, j: int, r: int, p: int, x: PageRef)
    requires 0 <= j < |cfg.pairs| && 0 <= r && 0 <= p <= |cfg.pids|
    ensures x in Before(ls, cfg, pass, j, r, p) <==>
      exists r', p' :: 0 <= r' && 0 <= p' < |cfg.pids| && Reached(r, p, r', p') && x in ListAt(ls, Src(cfg, pass, j, r', p'))
    decreases r, p
  {
    hide Src;
    if p > 0 {
      BeforeMembers(ls, cfg, pass, j, r, p - 1, x);
      if x in ListAt(ls, Src(cfg, pass, j, r, p - 1)) {
        assert Reached(r, p, r, p - 1);
      }
      forall r', p' | 0 <= r' && 0 <= p' < |cfg.pids| && Reached(r, p, r', p')
        ensures Reached(r, p - 1, r', p') || (r' == r && p' == p - 1)
      {
      }
    } else if r > 0 {
      BeforeMembers(ls, cfg, pass, j, r - 1, |cfg.pids|, x);
      forall r', p' | 0 <= r' && 0 <= p' < |cfg.pids|
        ensures Reached(r, 0, r', p') <==> Reached(r - 1, |cfg.pids|, r', p')
      {
      }
    }
  }

  /** A pass offers exactly the pages of its region. */
  lemma OfferedMembers(ls: Lists, cfg: Config, pass: Pass, j: int, x: PageRef)
    requires ValidConfig(cfg) && 0 <= j < |cfg.pairs| && 0 <= Rows(cfg, pass)
    ensures x in Offered(ls, cfg, pass, j) <==>
      exists c, p :: InCells(cfg, RegionOf(cfg, pass, j), c, p) && x in CellAt(ls, cfg, RegionOf(cfg, pass, j), c, p)
  {
    hide Before;
    hide Src;
    hide ValidConfig;
    var g := RegionOf(cfg, pass, j);
    BeforeMembers(ls, cfg, pass, j, Rows(cfg, pass), 0, x);
    if x in Offered(ls, cfg, pass, j) {
      var r, p :| 0 <= r && 0 <= p < |cfg.pids| && Reached(Rows(cfg, pass), 0, r, p) && x in ListAt(ls, Src(cfg, pass, j, r, p));
      var c := CountAt(cfg, pass, r);
      RowIs(cfg, pass, j, c, p);
      assert InCells(cfg, g, c, p) && x in CellAt(ls, cfg, g, c, p);
    }
    if exists c, p :: InCells(cfg, g, c, p) && x in CellAt(ls, cfg, g, c, p) {
      var c, p :| InCells(cfg, g, c, p) && x in CellAt(ls, cfg, g, c, p);
      RowIs(cfg, pass, j, c, p);
      assert Reached(Rows(cfg, pass), 0, RowOf(cfg, pass, c), p);
    }
  }

  lemma {:induction false} RegionLow(ls: Lists, cfg: Config, node: int, lo: int, hi: int)
    requires lo < hi
    ensures RegionBytes(ls, cfg, node, lo, hi) == RowBytes(ls, cfg, node, lo, |cfg.pids|) + RegionBytes(ls, cfg, node, lo + 1, hi)
    decreases hi - lo
  {
    hide RowBytes;
    if lo + 1 < hi {
      RegionLow(ls, cfg, node, lo, hi - 1);
    }
  }

  /** The bytes offered up to a row: complete rows, and part of the row itself. */
  lemma {:induction false} BeforeBytes(ls: Lists, cfg: Config, pass: Pass, j: int, r: int, p: int)
    requires 0 <= j < |cfg.pairs| && 0 <= r && 0 <= p <= |cfg.pids|
    ensures var node := RegionOf(cfg, pass, j).node; var c := CountAt(cfg, pass, r);
      Total(Before(ls, cfg, pass, j, r, p))
      == (if pass == ColdMove then RegionBytes(ls, cfg, node, 0, c)
          else RegionBytes(ls, cfg, node, c + 1, CountStart(cfg, pass) + 1))
       + RowBytes(ls, cfg, node, c, p)
    decreases r, p
  {
    hide Total;
    NoTotal();
    var node, c := RegionOf(cfg, pass, j).node, CountAt(cfg, pass, r);
    if p > 0 {
      BeforeBytes(ls, cfg, pass, j, r, p - 1);
      TotalAppend(Before(ls, cfg, pass, j, r, p - 1), ListAt(ls, Src(cfg, pass, j, r, p - 1)));
    } else if r > 0 {
      BeforeBytes(ls, cfg, pass, j, r - 1, |cfg.pids|);
      if pass != ColdMove {
        RegionLow(ls, cfg, node, c + 1, CountStart(cfg, pass) + 1);
      }
    }
  }

  lemma NoTotal()
    ensures Total([]) == 0
  {
  }

  lemma OfferedBytes(ls: Lists, cfg: Config, pass: Pass, j: int)
    requires ValidConfig(cfg) && 0 <= j < |cfg.pairs| && 0 <= Rows(cfg, pass)
    ensures Total(Offered(ls, cfg, pass, j)) == DemandOf(ls, cfg, RegionOf(cfg, pass, j))
  {
    hide Before;
    hide RegionBytes;
    BeforeBytes(ls, cfg, pass, j, Rows(cfg, pass), 0);
  }

  // ----- one pass

  lemma ChunkOf(ls0: Lists, ls: Lists, cfg: Config, pass: Pass, j: int, cap: int, c: int, p: int)
    requires ValidConfig(cfg) && 0 <= j < |cfg.pairs| && Drained(ls0, ls, cfg, pass, j, cap)
    requires InCells(cfg, RegionOf(cfg, pass, j), c, p)
    ensures var g := RegionOf(cfg, pass, j); var r := RowOf(cfg, pass, c); var all := CellAt(ls0, cfg, g, c, p);
      && InPass(cfg, pass, j, r, p) && all == ListAt(ls0, Src(cfg, pass, j, r, p))
      && |Chunk(ls0, cfg, pass, j, cap, r, p)| <= |all|
      && Chunk(ls0, cfg, pass, j, cap, r, p) == all[..|Chunk(ls0, cfg, pass, j, cap, r, p)|]
      && CellAt(ls, cfg, g, c, p) == all[|Chunk(ls0, cfg, pass, j, cap, r, p)|..]
  {
    hide Before;
    RowIs(cfg, pass, j, c, p);
  }

  /** Once a bucket gives up a page, every bucket offered before it has given up all of its own. */
  lemma EarlierAllTaken(ls: Lists, cfg: Config, pass: Pass, j: int, cap: nat, r: int, p: int, r': int, p': int)
    requires 0 <= j < |cfg.pairs| && 0 <= r && 0 <= p < |cfg.pids| && 0 <= r' && 0 <= p' < |cfg.pids|
    requires Reached(r', p', r, p) && Chunk(ls, cfg, pass, j, cap, r', p') != []
    ensures Chunk(ls, cfg, pass, j, cap, r, p) == ListAt(ls, Src(cfg, pass, j, r, p))
  {
    hide Before;
    hide Src;
    hide Total;
    hide FitLen;
    var list := ListAt(ls, Src(cfg, pass, j, r, p));
    var b, b' := Before(ls, cfg, pass, j, r, p), Before(ls, cfg, pass, j, r', p');
    FitNone(ListAt(ls, Src(cfg, pass, j, r', p')), Min(0, cap - Total(b')));
    assert cap - Total(b') > 0;
    BeforeStep(ls, cfg, pass, j, r, p);
    BeforeGrows(ls, cfg, pass, j, r, p + 1, r', p');
    PrefixTotal(b + list, b');
    TotalAppend(b, list);
    FitAll(list, cap - Total(b));
  }

  lemma {:induction false} AllTaken(ls: Lists, cfg: Config, pass: Pass, j: int, cap: nat, r: int, p: int)
    requires 0 <= j < |cfg.pairs| && 0 <= r && 0 <= p <= |cfg.pids|
    requires forall r', p' :: 0 <= r' && 0 <= p' < |cfg.pids| && Reached(r, p, r', p') ==>
      Chunk(ls, cfg, pass, j, cap, r', p') == ListAt(ls, Src(cfg, pass, j, r', p'))
    ensures Taken(ls, cfg, pass, j, cap, r, p) == Before(ls, cfg, pass, j, r, p)
    decreases r, p
  {
    hide Chunk;
    hide Src;
    if p > 0 {
      AllTaken(ls, cfg, pass, j, cap, r, p - 1);
      assert Reached(r, p, r, p - 1);
    } else if r > 0 {
      AllTaken(ls, cfg, pass, j, cap, r - 1, |cfg.pids|);
    }
  }

  /** The first page that is left would not have fitted. */
  lemma NextTooMuch(ls: Lists, cfg: Config, pass: Pass, j: int, cap: nat, r: int, p: int)
    requires ValidConfig(cfg) && InPass(cfg, pass, j, r, p)
    requires |Chunk(ls, cfg, pass, j, cap, r, p)| < |ListAt(ls, Src(cfg, pass, j, r, p))|
    requires Taken(ls, cfg, pass, j, cap, r, p) == Before(ls, cfg, pass, j, r, p)
    ensures Total(Fit(Offered(ls, cfg, pass, j), cap))
          + ListAt(ls, Src(cfg, pass, j, r, p))[|Chunk(ls, cfg, pass, j, cap, r, p)|].size > cap
  {
    hide Src;
    hide Total;
    hide FitLen;
    hide Taken;
    hide Before;
    var b, list, all := Before(ls, cfg, pass, j, r, p), ListAt(ls, Src(cfg, pass, j, r, p)), Offered(ls, cfg, pass, j);
    TakenIsLongestPrefix(ls, cfg, pass, j, cap, r, p);
    assert FitLen(b, cap) == |b|;
    FitAll(b, cap);
    var room := cap - Total(b);
    var k := FitLen(list, room);
    FitAll(list, room);
    FitIsLongest(list, room, k + 1);
    TotalTake(list, k);
    BeforeStep(ls, cfg, pass, j, r, p);
    BeforeGrows(ls, cfg, pass, j, r, p + 1, Rows(cfg, pass), 0);
    var rest := all[|b + list|..];
    assert all == (b + list) + rest;
    TotalAppend(b, list);
    FitConcat(b + list, rest, cap);
    FitConcat(b, list, cap);
    FitNone(rest, cap - Total(b + list));
    assert Fit(b, cap) == b && Fit(list, room) == list[..k] && Fit(rest, cap - Total(b + list)) == [];
    assert Fit(all, cap) == b + list[..k];
    TotalAppend(b, list[..k]);
    assert Chunk(ls, cfg, pass, j, cap, r, p) == list[..k];
    assert Total(list[..k + 1]) > room;
  }

  /** What is left and what was taken add up. */
  lemma {:induction false} LeftTotal(ls0: Lists, ls: Lists, cfg: Config, pass: Pass, j: int, cap: int, r: int, p: int)
    requires 0 <= j < |cfg.pairs| && Drained(ls0, ls, cfg, pass, j, cap)
    requires 0 <= r <= Rows(cfg, pass) && 0 <= p <= |cfg.pids| && (r == Rows(cfg, pass) ==> p == 0)
    ensures Total(Before(ls, cfg, pass, j, r, p)) + Total(Taken(ls0, cfg, pass, j, cap, r, p)) == Total(Before(ls0, cfg, pass, j, r, p))
    decreases r, p
  {
    hide Src;
    hide Total;
    NoTotal();
    if p > 0 {
      LeftTotal(ls0, ls, cfg, pass, j, cap, r, p - 1);
      var list, chunk := ListAt(ls0, Src(cfg, pass, j, r, p - 1)), Chunk(ls0, cfg, pass, j, cap, r, p - 1);
      var left := ListAt(ls, Src(cfg, pass, j, r, p - 1));
      assert left == list[|chunk|..];
      assert chunk == list[..|chunk|];
      TotalSplit(list, |chunk|);
      TotalAppend(Before(ls, cfg, pass, j, r, p - 1), left);
      TotalAppend(Before(ls0, cfg, pass, j, r, p - 1), list);
      TotalAppend(Taken(ls0, cfg, pass, j, cap, r, p - 1), chunk);
    } else if r > 0 {
      LeftTotal(ls0, ls, cfg, pass, j, cap, r - 1, |cfg.pids|);
    }
  }

  lemma MovedIsFit(ls0: Lists, ls: Lists, cfg: Config, pass: Pass, j: int, cap: nat)
    requires ValidConfig(cfg) && 0 <= j < |cfg.pairs| && 0 <= Rows(cfg, pass) && Drained(ls0, ls, cfg, pass, j, cap)
    ensures var g := RegionOf(cfg, pass, j);
      DemandOf(ls0, cfg, g) - DemandOf(ls, cfg, g) == Total(Fit(Offered(ls0, cfg, pass, j), cap))
  {
    hide Total;
    hide Before;
    hide Taken;
    hide Drained;
    hide DemandOf;
    LeftTotal(ls0, ls, cfg, pass, j, cap, Rows(cfg, pass), 0);
    TakenIsLongestPrefix(ls0, cfg, pass, j, cap, Rows(cfg, pass), 0);
    OfferedBytes(ls0, cfg, pass, j);
    OfferedBytes(ls, cfg, pass, j);
  }

  lemma DrainedInOrder(ls0: Lists, ls: Lists, cfg: Config, pass: Pass, j: int, cap: nat)
    requires ValidConfig(cfg) && 0 <= j < |cfg.pairs| && Drained(ls0, ls, cfg, pass, j, cap)
    ensures FromFront(ls0, ls, cfg, RegionOf(cfg, pass, j)) && InOrder(ls0, ls, cfg, RegionOf(cfg, pass, j))
  {
    hide Drained;
    hide Chunk;
    hide Src;
    hide ValidConfig;
    hide CellAt;
    var g := RegionOf(cfg, pass, j);
    forall c, p | InCells(cfg, g, c, p)
      ensures Shortened(CellAt(ls0, cfg, g, c, p), CellAt(ls, cfg, g, c, p))
    {
      ChunkOf(ls0, ls, cfg, pass, j, cap, c, p);
    }
    forall c, p, d, q | InCells(cfg, g, c, p) && InCells(cfg, g, d, q) && Earlier(g, c, p, d, q)
      && |CellAt(ls, cfg, g, d, q)| < |CellAt(ls0, cfg, g, d, q)|
      ensures CellAt(ls, cfg, g, c, p) == []
    {
      ChunkOf(ls0, ls, cfg, pass, j, cap, c, p);
      ChunkOf(ls0, ls, cfg, pass, j, cap, d, q);
      RowOrder(cfg, pass, j, c, p, d, q);
      EarlierAllTaken(ls0, cfg, pass, j, cap, RowOf(cfg, pass, c), p, RowOf(cfg, pass, d), q);
    }
  }

  lemma DrainedNext(ls0: Lists, ls: Lists, cfg: Config, pass: Pass, j: int, cap: nat, c: int, p: int)
    requires ValidConfig(cfg) && 0 <= j < |cfg.pairs| && Drained(ls0, ls, cfg, pass, j, cap)
    requires NextLeft(ls, cfg, RegionOf(cfg, pass, j), c, p)
    ensures Rows(cfg, pass) >= 0
    ensures Total(Fit(Offered(ls0, cfg, pass, j), cap)) + CellAt(ls, cfg, RegionOf(cfg, pass, j), c, p)[0].size > cap
  {
    hide Drained;
    hide Chunk;
    hide Src;
    hide ValidConfig;
    hide CellAt;
    hide Taken;
    hide Before;
    hide Total;
    var g, r := RegionOf(cfg, pass, j), RowOf(cfg, pass, c);
    ChunkOf(ls0, ls, cfg, pass, j, cap, c, p);
    forall r', p' | 0 <= r' && 0 <= p' < |cfg.pids| && Reached(r, p, r', p')
      ensures Chunk(ls0, cfg, pass, j, cap, r', p') == ListAt(ls0, Src(cfg, pass, j, r', p'))
    {
      var d := CountAt(cfg, pass, r');
      RowIs(cfg, pass, j, d, p');
      RowOrder(cfg, pass, j, d, p', c, p);
      ChunkOf(ls0, ls, cfg, pass, j, cap, d, p');
    }
    AllTaken(ls0, cfg, pass, j, cap, r, p);
    NextTooMuch(ls0, cfg, pass, j, cap, r, p);
  }

  /** A finished pass obeys the law, with the charge that its cap and its offer give. */
  lemma DrainedLaw(ls0: Lists, ls: Lists, cfg: Config, pass: Pass, j: int, cap: nat)
    requires ValidConfig(cfg) && 0 <= j < |cfg.pairs| && 0 <= Rows(cfg, pass) && Drained(ls0, ls, cfg, pass, j, cap)
    ensures var g := RegionOf(cfg, pass, j); PassLaw(ls0, ls, cfg, g, Min(cap, DemandOf(ls0, cfg, g)))
  {
    hide Drained;
    hide ValidConfig;
    hide CellAt;
    hide Before;
    hide Total;
    hide FitLen;
    hide NextLeft;
    hide DemandOf;
    hide FromFront;
    hide InOrder;
    var g, offered := RegionOf(cfg, pass, j), Offered(ls0, cfg, pass, j);
    DrainedInOrder(ls0, ls, cfg, pass, j, cap);
    MovedIsFit(ls0, ls, cfg, pass, j, cap);
    OfferedBytes(ls0, cfg, pass, j);
    FitWithin(offered, cap);
    FitAll(offered, cap);
    TotalSplit(offered, FitLen(offered, cap));
    if Total(offered) <= cap {
      assert Fit(offered, cap) == offered;
    }
    forall c, p | NextLeft(ls, cfg, g, c, p)
      ensures 0 <= p < |cfg.pids| && CellAt(ls, cfg, g, c, p) != []
      ensures DemandOf(ls0, cfg, g) - DemandOf(ls, cfg, g) + CellAt(ls, cfg, g, c, p)[0].size > cap
    {
      NextCell(ls, cfg, g, c, p);
      DrainedNext(ls0, ls, cfg, pass, j, cap, c, p);
    }
  }

  lemma NextCell(ls: Lists, cfg: Config, g: Region, c: int, p: int)
    requires NextLeft(ls, cfg, g, c, p)
    ensures 0 <= p < |cfg.pids| && CellAt(ls, cfg, g, c, p) != []
  {
  }

  // ----- where the pages go

  /** The pages that left the buckets of one process on one node with counts in [lo, hi). */
  ghost function Gone(ls0: Lists, ls: Lists, pid: int, node: int, lo: int, hi: int): multiset<PageRef>
    decreases hi - lo
  {
    if lo >= hi then multiset{} else Gone(ls0, ls, pid, node, lo, hi - 1) + Lost(ls0, ls, Bucket(pid, hi - 1, node))
  }

  ghost function Lost(ls0: Lists, ls: Lists, id: ListId): multiset<PageRef> {
    multiset(ListAt(ls0, id)) - multiset(ListAt(ls, id))
  }

  /** The hot list of every process gains exactly what left its buckets on the cold node, and its cold list
      what left its buckets below the threshold on the hot node; hot pages of the hot node stay. */
  ghost predicate Arrived(ls0: Lists, ls: Lists, cfg: Config, j: int)
    requires 0 <= j < |cfg.pairs|
  {
    var hot, cold := cfg.pairs[j].hotNode, cfg.pairs[j].coldNode;
    && (forall p :: 0 <= p < |cfg.pids| ==>
          multiset(ListAt(ls, Hot(cfg.pids[p], j)))
          == multiset(ListAt(ls0, Hot(cfg.pids[p], j))) + Gone(ls0, ls, cfg.pids[p], cold, 0, cfg.maxCount + 1))
    && (forall p :: 0 <= p < |cfg.pids| ==>
          multiset(ListAt(ls, Cold(cfg.pids[p], j)))
          == multiset(ListAt(ls0, Cold(cfg.pids[p], j))) + Gone(ls0, ls, cfg.pids[p], hot, 0, cfg.threshold))
    && (forall pid, c :: cfg.threshold <= c ==> ListAt(ls, Bucket(pid, c, hot)) == ListAt(ls0, Bucket(pid, c, hot)))
  }

  lemma {:induction false} GoneLow(ls0: Lists, ls: Lists, pid: int, node: int, lo: int, hi: int)
    requires lo < hi
    ensures Gone(ls0, ls, pid, node, lo, hi) == Lost(ls0, ls, Bucket(pid, lo, node)) + Gone(ls0, ls, pid, node, lo + 1, hi)
    decreases hi - lo
  {
    hide Lost;
    if lo + 1 < hi {
      GoneLow(ls0, ls, pid, node, lo, hi - 1);
    }
  }

  lemma {:induction false} GoneSplit(ls0: Lists, ls: Lists, pid: int, node: int, lo: int, mid: int, hi: int)
    requires lo <= mid <= hi
    ensures Gone(ls0, ls, pid, node, lo, hi) == Gone(ls0, ls, pid, node, lo, mid) + Gone(ls0, ls, pid, node, mid, hi)
    decreases hi - mid
  {
    hide Lost;
    if mid < hi {
      GoneSplit(ls0, ls, pid, node, lo, mid, hi - 1);
    }
  }

  lemma LostIsChunk(all: seq<PageRef>, left: seq<PageRef>, chunk: seq<PageRef>)
    requires |chunk| <= |all| && chunk == all[..|chunk|] && left == all[|chunk|..]
    ensures multiset(all) - multiset(left) == multiset(chunk)
  {
    assert all == chunk + left;
  }

  lemma ChunkLost(ls0: Lists, ls: Lists, cfg: Config, pass: Pass, j: int, cap: int, r: int, p: int)
    requires ValidConfig(cfg) && 0 <= j < |cfg.pairs| && Drained(ls0, ls, cfg, pass, j, cap) && InPass(cfg, pass, j, r, p)
    ensures multiset(Chunk(ls0, cfg, pass, j, cap, r, p))
         == Lost(ls0, ls, Bucket(cfg.pids[p], CountAt(cfg, pass, r), RegionOf(cfg, pass, j).node))
  {
    hide Drained;
    hide Chunk;
    hide ValidConfig;
    hide Src;
    var node, c := RegionOf(cfg, pass, j).node, CountAt(cfg, pass, r);
    RowIs(cfg, pass, j, c, p);
    ChunkOf(ls0, ls, cfg, pass, j, cap, c, p);
    LostIsChunk(ListAt(ls0, Bucket(cfg.pids[p], c, node)), ListAt(ls, Bucket(cfg.pids[p], c, node)),
                Chunk(ls0, cfg, pass, j, cap, r, p));
  }

  /** What the first `rows` rows of a pass took from the buckets of one process. */
  ghost function GoneRows(ls0: Lists, ls: Lists, cfg: Config, pass: Pass, j: int, p: int, rows: int): multiset<PageRef>
    requires 0 <= j < |cfg.pairs| && 0 <= p < |cfg.pids|
  {
    var node, c := RegionOf(cfg, pass, j).node, CountAt(cfg, pass, rows);
    if pass == ColdMove then Gone(ls0, ls, cfg.pids[p], node, 0, c)
    else Gone(ls0, ls, cfg.pids[p], node, c + 1, CountStart(cfg, pass) + 1)
  }

  lemma GoneRowsStep(ls0: Lists, ls: Lists, cfg: Config, pass: Pass, j: int, p: int, rows: int)
    requires 0 <= j < |cfg.pairs| && 0 <= p < |cfg.pids| && 0 <= rows
    ensures GoneRows(ls0, ls, cfg, pass, j, p, 0) == multiset{}
    ensures GoneRows(ls0, ls, cfg, pass, j, p, rows + 1)
         == Lost(ls0, ls, Bucket(cfg.pids[p], CountAt(cfg, pass, rows), RegionOf(cfg, pass, j).node))
          + GoneRows(ls0, ls, cfg, pass, j, p, rows)
  {
    hide Lost;
    var node, c := RegionOf(cfg, pass, j).node, CountAt(cfg, pass, rows);
    if pass != ColdMove {
      GoneLow(ls0, ls, cfg.pids[p], node, c, CountStart(cfg, pass) + 1);
    }
  }

  lemma {:induction false} GrabbedGone(ls0: Lists, ls: Lists, cfg: Config, pass: Pass, j: int, cap: int, p: int, rows: int)
    requires ValidConfig(cfg) && 0 <= j < |cfg.pairs| && Drained(ls0, ls, cfg, pass, j, cap)
    requires 0 <= p < |cfg.pids| && 0 <= rows <= Rows(cfg, pass)
    ensures multiset(Grabbed(ls0, cfg, pass, j, cap, p, rows)) == GoneRows(ls0, ls, cfg, pass, j, p, rows)
  {
    hide Drained;
    hide Chunk;
    hide ValidConfig;
    hide Lost;
    hide GoneRows;
    if rows == 0 {
      GoneRowsStep(ls0, ls, cfg, pass, j, p, 0);
    } else {
      GrabbedGone(ls0, ls, cfg, pass, j, cap, p, rows - 1);
      ChunkLost(ls0, ls, cfg, pass, j, cap, rows - 1, p);
      GoneRowsStep(ls0, ls, cfg, pass, j, p, rows - 1);
    }
  }

  lemma HotPagesStay(ls0: Lists, ls: Lists, cfg: Config, j: int, pid: int, c: int)
    requires ValidConfig(cfg) && 0 <= j < |cfg.pairs| && OthersKept(ls0, ls, cfg) && cfg.threshold <= c
    ensures ListAt(ls, Bucket(pid, c, cfg.pairs[j].hotNode)) == ListAt(ls0, Bucket(pid, c, cfg.pairs[j].hotNode))
  {
    var id := Bucket(pid, c, cfg.pairs[j].hotNode);
    forall k | 0 <= k < |cfg.pairs|
      ensures cfg.pairs[j].hotNode != cfg.pairs[k].coldNode
    {
    }
    assert !Touched(cfg, HotMove, id) && !Touched(cfg, Prefetch, id) && !Touched(cfg, ColdMove, id);
  }

  lemma ListArrived(ls0: Lists, ls: Lists, cfg: Config, j: int, l: NodeCtrl, p: int)
    requires ValidConfig(cfg) && 0 <= j < |cfg.pairs| && PairResult(ls0, ls, cfg, j, l) && 0 <= p < |cfg.pids|
    ensures multiset(ListAt(ls, Hot(cfg.pids[p], j)))
         == multiset(ListAt(ls0, Hot(cfg.pids[p], j)))
          + (GoneRows(ls0, ls, cfg, Prefetch, j, p, Rows(cfg, Prefetch)) + GoneRows(ls0, ls, cfg, HotMove, j, p, Rows(cfg, HotMove)))
    ensures multiset(ListAt(ls, Cold(cfg.pids[p], j)))
         == multiset(ListAt(ls0, Cold(cfg.pids[p], j))) + GoneRows(ls0, ls, cfg, ColdMove, j, p, Rows(cfg, ColdMove))
  {
    hide Drained;
    hide Grabbed;
    hide Before;
    hide Bytes;
    hide GoneRows;
    hide Paired;
    hide Total;
    var h0, c0 := ListAt(ls0, Hot(cfg.pids[p], j)), ListAt(ls0, Cold(cfg.pids[p], j));
    var x := Collected(ls0, cfg, Prefetch, j, l.prefetch.cap, p);
    var y := Collected(ls0, cfg, HotMove, j, l.hotMove.cap, p);
    var z := Collected(ls0, cfg, ColdMove, j, l.coldMove.cap, p);
    assert ListAt(ls, Hot(cfg.pids[p], j)) == x + (y + h0) && ListAt(ls, Cold(cfg.pids[p], j)) == z + c0;
    GrabbedGone(ls0, ls, cfg, HotMove, j, l.hotMove.cap, p, Rows(cfg, HotMove));
    GrabbedGone(ls0, ls, cfg, Prefetch, j, l.prefetch.cap, p, Rows(cfg, Prefetch));
    GrabbedGone(ls0, ls, cfg, ColdMove, j, l.coldMove.cap, p, Rows(cfg, ColdMove));
    hide PairResult;
    JoinThree(x, y, h0);
  }

  lemma JoinThree(x: seq<PageRef>, y: seq<PageRef>, h: seq<PageRef>)
    ensures multiset(x + (y + h)) == multiset(h) + (multiset(x) + multiset(y))
  {
  }

  lemma GoneAll(ls0: Lists, ls: Lists, cfg: Config, j: int, p: int)
    requires ValidConfig(cfg) && 0 <= j < |cfg.pairs| && 0 <= p < |cfg.pids|
    ensures GoneRows(ls0, ls, cfg, Prefetch, j, p, Rows(cfg, Prefetch)) + GoneRows(ls0, ls, cfg, HotMove, j, p, Rows(cfg, HotMove))
         == Gone(ls0, ls, cfg.pids[p], cfg.pairs[j].coldNode, 0, cfg.maxCount + 1)
    ensures GoneRows(ls0, ls, cfg, ColdMove, j, p, Rows(cfg, ColdMove))
         == Gone(ls0, ls, cfg.pids[p], cfg.pairs[j].hotNode, 0, cfg.threshold)
  {
    hide Gone;
    hide Paired;
    GoneSplit(ls0, ls, cfg.pids[p], cfg.pairs[j].coldNode, 0, cfg.threshold, cfg.maxCount + 1);
  }

  lemma RoundArrived(ls0: Lists, ls: Lists, cfg: Config, j: int, l: NodeCtrl)
    requires ValidConfig(cfg) && 0 <= j < |cfg.pairs| && PairResult(ls0, ls, cfg, j, l) && OthersKept(ls0, ls, cfg)
    ensures Arrived(ls0, ls, cfg, j)
  {
    hide PairResult;
    hide OthersKept;
    hide Gone;
    hide GoneRows;
    hide Paired;
    hide ListAt;
    forall p | 0 <= p < |cfg.pids|
      ensures multiset(ListAt(ls, Hot(cfg.pids[p], j)))
           == multiset(ListAt(ls0, Hot(cfg.pids[p], j))) + Gone(ls0, ls, cfg.pids[p], cfg.pairs[j].coldNode, 0, cfg.maxCount + 1)
      ensures multiset(ListAt(ls, Cold(cfg.pids[p], j)))
           == multiset(ListAt(ls0, Cold(cfg.pids[p], j))) + Gone(ls0, ls, cfg.pids[p], cfg.pairs[j].hotNode, 0, cfg.threshold)
    {
      ListArrived(ls0, ls, cfg, j, l, p);
      GoneAll(ls0, ls, cfg, j, p);
    }
    forall pid, c | cfg.threshold <= c
      ensures ListAt(ls, Bucket(pid, c, cfg.pairs[j].hotNode)) == ListAt(ls0, Bucket(pid, c, cfg.pairs[j].hotNode))
    {
      HotPagesStay(ls0, ls, cfg, j, pid, c);
    }
  }

  // ----- the law of a round

  /** A round that charges `u` bytes for hot pages, `y` for prefetched and `z` for cold ones. */
  ghost predicate RoundWith(ls0: Lists, ls: Lists, cfg: Config, room: Room, j: int, u: nat, y: nat, z: nat)
    requires 0 <= j < |cfg.pairs|
  {
    var hot, prefetch, cold := HotRegion(cfg, j), PrefetchRegion(cfg, j), ColdRegion(cfg, j);
    && HotCharge(room, DemandOf(ls0, cfg, hot), u) && PassLaw(ls0, ls, cfg, hot, u)
    && PrefetchCharge(room, u, DemandOf(ls0, cfg, prefetch), y) && PassLaw(ls0, ls, cfg, prefetch, y)
    && ColdCharge(room, u, y, DemandOf(ls0, cfg, cold), z) && PassLaw(ls0, ls, cfg, cold, z)
    && Arrived(ls0, ls, cfg, j)
  }

  ghost predicate RoundLaw(ls0: Lists, ls: Lists, cfg: Config, room: Room, j: int)
    requires 0 <= j < |cfg.pairs|
  {
    exists u: nat, y: nat, z: nat :: RoundWith(ls0, ls, cfg, room, j, u, y, z)
  }

  /** What the three passes leave obeys the law. */
  lemma ResultObeysLaw(n: NodeCtrl, ls0: Lists, ls: Lists, cfg: Config, j: int)
    requires ValidConfig(cfg) && 0 <= j < |cfg.pairs| && Fresh(n) && OthersKept(ls0, ls, cfg)
    requires PairResult(ls0, ls, cfg, j, FinalLedger(n, ls0, cfg, j))
    ensures RoundLaw(ls0, ls, cfg, RoomOf(n), j)
  {
    hide Drained;
    hide PassLaw;
    hide Before;
    hide Arrived;
    hide OthersKept;
    hide DemandOf;
    hide Collected;
    hide Bytes;
    hide Paired;
    hide HotCharge;
    hide PrefetchCharge;
    hide ColdCharge;
    hide AfterCold;
    var a, b, c := Total(Offered(ls0, cfg, HotMove, j)), Total(Offered(ls0, cfg, Prefetch, j)), Total(Offered(ls0, cfg, ColdMove, j));
    var l := FinalLedger(n, ls0, cfg, j);
    ChargesGreatest(n, a, b, c);
    HotPass(n, a);
    RoundCaps(n, a, b, c);
    OfferedBytes(ls0, cfg, HotMove, j);
    OfferedBytes(ls0, cfg, Prefetch, j);
    OfferedBytes(ls0, cfg, ColdMove, j);
    assert 0 <= l.hotMove.cap by { SameCaps(n, a, b, c); }
    DrainedLaw(ls0, ls, cfg, HotMove, j, l.hotMove.cap);
    DrainedLaw(ls0, ls, cfg, Prefetch, j, l.prefetch.cap);
    DrainedLaw(ls0, ls, cfg, ColdMove, j, l.coldMove.cap);
    RoundArrived(ls0, ls, cfg, j, l);
    assert RoundWith(ls0, ls, cfg, RoomOf(n), j, l.hotMove.used, l.prefetch.used, l.coldMove.used);
  }
}
