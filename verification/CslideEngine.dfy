/**
 `cslide_policy` as a whole: the scanned pages of every working process are counted into its buckets, and
 the selection round runs on what was counted.
 */
module CslideEngine {
  import opened Pages
  import opened PageStores
  import opened NodePairs
  import opened PassSpec
  import opened CslideCount
  import opened CslideLaw
  import opened CslidePriority
  import opened CslidePolicy

  /** The scan of one process: the heads of its memory areas' lists, what the lists hold, and all pages in
      scan order. */
  datatype Scan = Scan(counter: Counter, heads: array<PageRef?>, ghost vmas: seq<seq<PageRef>>, ghost pages: seq<PageRef>)

  /** The counters of the round, one per working process, each with the grid of its process. */
  ghost predicate Matches(scans: seq<Scan>, store: PageStore, cfg: Config, nodeNum: int) {
    && |scans| == |cfg.pids|
    && forall p :: 0 <= p < |scans| ==>
         scans[p].counter.store == store && scans[p].counter.grid == Grid(cfg.pids[p], cfg.maxCount, nodeNum)
  }

  /** No page and no list head belongs to two scans. */
  ghost predicate Apart(scans: seq<Scan>) {
    forall p, q :: 0 <= p < |scans| && 0 <= q < |scans| && p != q ==>
      scans[p].counter.scan !! scans[q].counter.scan && scans[p].heads != scans[q].heads
  }

  /** Scan `p` is as the scanner left it. */
  ghost predicate Ready(s: Scan)
    reads s.heads, s.counter.scan
  {
    && s.counter.Scanned(s.vmas, s.pages) && s.heads.Length == |s.vmas|
    && Waiting(NextOf(s.counter.scan), s.heads[..], s.vmas, 0)
  }

  /** The lists after the first `n` processes were counted. */
  ghost function CountedAll(ls: Lists, scans: seq<Scan>, n: nat): Lists
    requires n <= |scans|
  {
    if n == 0 then ls
    else Counted(CountedAll(ls, scans, n - 1), scans[n - 1].counter.grid, scans[n - 1].pages, scans[n - 1].counter.node)
  }

  ghost predicate DistinctPids(scans: seq<Scan>) {
    forall p, q :: 0 <= p < q < |scans| ==> scans[p].counter.grid.pid != scans[q].counter.grid.pid
  }

  lemma {:induction false} CountedKeys(ls: Lists, scans: seq<Scan>, n: nat)
    requires n <= |scans|
    ensures CountedAll(ls, scans, n).Keys == ls.Keys
  {
    if n > 0 {
      CountedKeys(ls, scans, n - 1);
    }
  }

  /** A list of no counted process is as it was. */
  lemma {:induction false} CountedOthers(ls: Lists, scans: seq<Scan>, n: nat, id: ListId)
    requires n <= |scans| && id in ls && forall p :: 0 <= p < n ==> !GridId(scans[p].counter.grid, id)
    ensures id in CountedAll(ls, scans, n) && CountedAll(ls, scans, n)[id] == ls[id]
  {
    hide GridId;
    if n > 0 {
      CountedOthers(ls, scans, n - 1, id);
    }
  }

  /** Bucket (c, n) of a process holds exactly its own scanned pages with that count on that node. */
  lemma {:induction false} CountedBucket(ls: Lists, scans: seq<Scan>, n: nat, p: nat, id: ListId)
    requires p < n <= |scans| && DistinctPids(scans) && id in ls && GridId(scans[p].counter.grid, id)
    ensures id in CountedAll(ls, scans, n)
    ensures CountedAll(ls, scans, n)[id] == Part(scans[p].pages, scans[p].counter.node, id.count, id.node)
  {
    CountedKeys(ls, scans, n - 1);
    if p < n - 1 {
      CountedBucket(ls, scans, n - 1, p, id);
    }
  }

  lemma EmptyStays(ls: Lists, scans: seq<Scan>, n: nat, q: nat)
    requires n <= q < |scans| && DistinctPids(scans) && EmptyGrid(ls, scans[q].counter.grid)
    ensures EmptyGrid(CountedAll(ls, scans, n), scans[q].counter.grid)
  {
    hide CountedAll;
    var g := scans[q].counter.grid;
    forall c, m | InGrid(g, c, m)
      ensures Bucket(g.pid, c, m) in CountedAll(ls, scans, n) && CountedAll(ls, scans, n)[Bucket(g.pid, c, m)] == []
    {
      CountedOthers(ls, scans, n, Bucket(g.pid, c, m));
    }
  }

  lemma SelectionStays(ls: Lists, scans: seq<Scan>, n: nat, cfg: Config)
    requires n <= |scans| && Complete(ls, cfg) && NothingSelected(ls)
    ensures Complete(CountedAll(ls, scans, n), cfg) && NothingSelected(CountedAll(ls, scans, n))
  {
    hide CountedAll;
    CountedKeys(ls, scans, n);
    var after := CountedAll(ls, scans, n);
    forall id | id in after && !id.Bucket?
      ensures after[id] == []
    {
      CountedOthers(ls, scans, n, id);
    }
  }

  ghost function AllScanned(scans: seq<Scan>, n: nat): set<PageRef>
    requires n <= |scans|
  {
    if n == 0 then {} else AllScanned(scans, n - 1) + scans[n - 1].counter.scan
  }

  lemma {:induction false} ScannedApart(scans: seq<Scan>, n: nat, q: nat)
    requires n <= q < |scans| && Apart(scans)
    ensures AllScanned(scans, n) !! scans[q].counter.scan
  {
    if n > 0 {
      ScannedApart(scans, n - 1, q);
    }
  }

  /** Count every process. */
  method CountAll(store: PageStore, scans: seq<Scan>, ghost all: set<PageRef>, ghost arrays: set<array<PageRef?>>)
    requires store.Valid() && store.Numbered() && Apart(scans) && DistinctPids(scans)
    requires forall p :: 0 <= p < |scans| ==>
      && scans[p].counter.store == store && EmptyGrid(store.lists, scans[p].counter.grid) && Ready(scans[p])
      && scans[p].counter.scan <= all && scans[p].heads in arrays
    requires store.pages !! all && all == AllScanned(scans, |scans|)
    modifies store, all, arrays
    ensures store.Valid() && store.Numbered()
    ensures store.lists == CountedAll(old(store.lists), scans, |scans|)
    ensures store.pages == old(store.pages) + all
  {
    hide PageStore.Valid;
    hide PageStore.Numbered;
    hide EmptyGrid;
    hide Waiting;
    hide Counted;
    hide Apart;
    hide DistinctPids;
    hide AllScanned;
    ghost var ls0, pages0 := store.lists, store.pages;
    NoneScanned(scans);
    for p := 0 to |scans|
      invariant store.Valid() && store.Numbered()
      invariant store.lists == CountedAll(ls0, scans, p)
      invariant store.pages == pages0 + AllScanned(scans, p)
      invariant forall q :: p <= q < |scans| ==> Ready(scans[q])
    {
      EmptyStays(ls0, scans, p, p);
      ScannedApart(scans, p, p);
      MoreScanned(scans, p);
      scans[p].counter.CountNodePfs(scans[p].heads, scans[p].vmas, scans[p].pages);
      forall q | p < q < |scans|
        ensures Ready(scans[q])
      {
        PairApart(scans, p, q);
      }
    }
  }

  lemma NoneScanned(scans: seq<Scan>)
    ensures AllScanned(scans, 0) == {}
  {
  }

  lemma MoreScanned(scans: seq<Scan>, p: nat)
    requires p < |scans|
    ensures AllScanned(scans, p + 1) == AllScanned(scans, p) + scans[p].counter.scan
  {
  }

  lemma PairApart(scans: seq<Scan>, p: nat, q: nat)
    requires Apart(scans) && p < |scans| && q < |scans| && p != q
    ensures scans[p].counter.scan !! scans[q].counter.scan && scans[p].heads != scans[q].heads
  {
  }

  /** What the round did for pair `j` to the counted lists: it stayed within all limits, it moved what the three
      passes move, which obeys the law of a round, and of the nodes' pages the right ones went first. */
  ghost predicate PolicyDone(ls0: Lists, ls: Lists, cfg: Config, host: Host, nodeNum: int, j: int)
    requires ValidConfig(cfg) && Within(cfg, host) && 0 <= j < |cfg.pairs|
  {
    && PairSafe(ls0, ls, cfg, host, j)
    && PairFiltered(ls0, ls, cfg, host, j)
    && RoundLaw(ls0, ls, cfg, RoomFor(ls0, cfg, host, j), j)
    && (0 <= cfg.pairs[j].coldNode < nodeNum ==> HottestSelected(ls0, ls, cfg, j))
    && (0 <= cfg.pairs[j].hotNode < nodeNum ==> ColdestSelected(ls0, ls, cfg, j))
  }

  /** Counting puts every page into the bucket of its own count. */
  lemma CountedGraded(ls: Lists, scans: seq<Scan>, store: PageStore, cfg: Config, nodeNum: int, n: int)
    requires Matches(scans, store, cfg, nodeNum) && 0 <= n < nodeNum
    requires forall p, c, n :: 0 <= p < |scans| && InGrid(scans[p].counter.grid, c, n) ==>
      ListAt(ls, Bucket(cfg.pids[p], c, n)) == Part(scans[p].pages, scans[p].counter.node, c, n)
    ensures GradedOn(ls, cfg, n)
  {
    hide Part;
    hide ListAt;
    forall p, c, x | 0 <= p < |cfg.pids| && 0 <= c <= cfg.maxCount && x in ListAt(ls, Bucket(cfg.pids[p], c, n))
      ensures x.count == c
    {
      assert InGrid(scans[p].counter.grid, c, n);
      PartMembers(scans[p].pages, scans[p].counter.node, c, n, x);
    }
  }

  /**
   `cslide_policy`: counting every working process and then selecting. Every pair's selection is that of a
   round over the counted pages, bucket by bucket the scans themselves, and no page is lost.
   */
  method Policy(store: PageStore, cfg: Config, host: Host, nodeNum: int, scans: seq<Scan>,
                ghost all: set<PageRef>, ghost arrays: set<array<PageRef?>>)
    requires store.Valid() && store.Numbered() && ValidConfig(cfg) && Complete(store.lists, cfg)
    requires NothingSelected(store.lists) && Within(cfg, host) && Matches(scans, store, cfg, nodeNum) && Apart(scans)
    requires forall p :: 0 <= p < |scans| ==>
      && EmptyGrid(store.lists, scans[p].counter.grid) && Ready(scans[p])
      && scans[p].counter.scan <= all && scans[p].heads in arrays
    requires store.pages !! all && all == AllScanned(scans, |scans|)
    modifies store, all, arrays, store.pages
    ensures store.Valid() && store.pages == old(store.pages) + all
    ensures forall j :: 0 <= j < |cfg.pairs| ==>
      PolicyDone(CountedAll(old(store.lists), scans, |scans|), store.lists, cfg, host, nodeNum, j)
    ensures forall p, c, n :: 0 <= p < |scans| && InGrid(scans[p].counter.grid, c, n) ==>
      ListAt(CountedAll(old(store.lists), scans, |scans|), Bucket(cfg.pids[p], c, n))
      == Part(scans[p].pages, scans[p].counter.node, c, n)
  {
    hide PageStore.Valid;
    hide PageStore.Numbered;
    hide EmptyGrid;
    hide Ready;
    hide Complete;
    hide NothingSelected;
    hide Within;
    hide Apart;
    hide CountedAll;
    hide PairSafe;
    hide PairFiltered;
    hide RoundLaw;
    hide HottestSelected;
    hide ColdestSelected;
    hide GradedOn;
    hide RoomFor;
    hide ValidConfig;
    hide Part;
    ghost var ls0 := store.lists;
    PidsDistinct(scans, store, cfg, nodeNum);
    SelectionStays(ls0, scans, |scans|, cfg);
    CountedBuckets(ls0, scans, store, cfg, nodeNum);
    CountAll(store, scans, all, arrays);
    SelectPages(store, cfg, host);
    ghost var ls1 := CountedAll(ls0, scans, |scans|);
    forall j | 0 <= j < |cfg.pairs|
      ensures PolicyDone(ls1, store.lists, cfg, host, nodeNum, j)
    {
      if 0 <= cfg.pairs[j].coldNode < nodeNum {
        CountedGraded(ls1, scans, store, cfg, nodeNum, cfg.pairs[j].coldNode);
        HottestFirst(ls1, store.lists, cfg, RoomFor(ls1, cfg, host, j), j);
      }
      if 0 <= cfg.pairs[j].hotNode < nodeNum {
        CountedGraded(ls1, scans, store, cfg, nodeNum, cfg.pairs[j].hotNode);
        ColdestFirst(ls1, store.lists, cfg, RoomFor(ls1, cfg, host, j), j);
      }
    }
  }

  lemma PidsDistinct(scans: seq<Scan>, store: PageStore, cfg: Config, nodeNum: int)
    requires Matches(scans, store, cfg, nodeNum) && ValidConfig(cfg)
    ensures DistinctPids(scans)
  {
  }

  lemma CountedBuckets(ls: Lists, scans: seq<Scan>, store: PageStore, cfg: Config, nodeNum: int)
    requires Matches(scans, store, cfg, nodeNum) && DistinctPids(scans)
    requires forall p :: 0 <= p < |scans| ==> EmptyGrid(ls, scans[p].counter.grid)
    ensures forall p, c, n :: 0 <= p < |scans| && InGrid(scans[p].counter.grid, c, n) ==>
      ListAt(CountedAll(ls, scans, |scans|), Bucket(cfg.pids[p], c, n))
      == Part(scans[p].pages, scans[p].counter.node, c, n)
  {
    hide CountedAll;
    hide Part;
    hide DistinctPids;
    forall p, c, n | 0 <= p < |scans| && InGrid(scans[p].counter.grid, c, n)
      ensures ListAt(CountedAll(ls, scans, |scans|), Bucket(cfg.pids[p], c, n))
           == Part(scans[p].pages, scans[p].counter.node, c, n)
    {
      CountedBucket(ls, scans, |scans|, p, Bucket(cfg.pids[p], c, n));
    }
  }
}
