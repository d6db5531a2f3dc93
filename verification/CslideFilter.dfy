/**
 The whole selection round (`cslide_filter_pfs`): what the three passes together leave in the lists,
 and what that means for quota and node occupancy.
 */
module CslideFilter {
  import opened Pages
  import opened PageStores
  import opened FlowControl
  import opened FlowSafety
  import opened NodePairs
  import opened PassSpec
  import opened CslideRound

  // ----- the passes do not disturb each other

  ghost predicate SameOffer(ls: Lists, ls': Lists, cfg: Config, pass: Pass, j: int)
    requires 0 <= j < |cfg.pairs|
  {
    forall r, p :: 0 <= r < Rows(cfg, pass) && 0 <= p < |cfg.pids| ==>
      ListAt(ls, Src(cfg, pass, j, r, p)) == ListAt(ls', Src(cfg, pass, j, r, p))
  }

  lemma {:induction false} BeforeSame(ls: Lists, ls': Lists, cfg: Config, pass: Pass, j: int, ci: int, pi: int)
    requires 0 <= j < |cfg.pairs| && SameOffer(ls, ls', cfg, pass, j)
    requires 0 <= ci <= Rows(cfg, pass) && 0 <= pi <= |cfg.pids| && (ci == Rows(cfg, pass) ==> pi == 0)
    ensures Before(ls, cfg, pass, j, ci, pi) == Before(ls', cfg, pass, j, ci, pi)
    decreases ci, pi
  {
    if pi > 0 {
      BeforeSame(ls, ls', cfg, pass, j, ci, pi - 1);
    } else if ci > 0 {
      BeforeSame(ls, ls', cfg, pass, j, ci - 1, |cfg.pids|);
    }
  }

  lemma ChunkSame(ls: Lists, ls': Lists, cfg: Config, pass: Pass, j: int, cap: int, ci: int, pi: int)
    requires SameOfferIn(ls, ls', cfg, pass, j) && InPass(cfg, pass, j, ci, pi)
    ensures Chunk(ls, cfg, pass, j, cap, ci, pi) == Chunk(ls', cfg, pass, j, cap, ci, pi)
  {
    BeforeSame(ls, ls', cfg, pass, j, ci, pi);
  }

  ghost predicate SameOfferIn(ls: Lists, ls': Lists, cfg: Config, pass: Pass, j: int) {
    0 <= j < |cfg.pairs| && SameOffer(ls, ls', cfg, pass, j)
  }

  lemma {:induction false} GrabbedSame(ls: Lists, ls': Lists, cfg: Config, pass: Pass, j: int, cap: int, pi: int, rows: int)
    requires SameOfferIn(ls, ls', cfg, pass, j) && 0 <= pi < |cfg.pids| && 0 <= rows <= Rows(cfg, pass)
    ensures Grabbed(ls, cfg, pass, j, cap, pi, rows) == Grabbed(ls', cfg, pass, j, cap, pi, rows)
  {
    hide Chunk;
    hide SameOffer;
    if rows > 0 {
      ChunkSame(ls, ls', cfg, pass, j, cap, rows - 1, pi);
      GrabbedSame(ls, ls', cfg, pass, j, cap, pi, rows - 1);
    }
  }

  /** A bucket offered in one pass is not touched by another. */
  lemma OtherPassKeeps(cfg: Config, pass: Pass, other: Pass, j: int, r: int, p: int)
    requires ValidConfig(cfg) && InPass(cfg, pass, j, r, p) && other != pass
    ensures !Touched(cfg, other, Src(cfg, pass, j, r, p))
  {
    if pass == ColdMove || other == ColdMove {
      forall k | 0 <= k < |cfg.pairs|
        ensures SrcNode(cfg, pass, j) != SrcNode(cfg, other, k)
      {
        if k != j {
          assert cfg.pairs[j].hotNode != cfg.pairs[k].coldNode && cfg.pairs[k].hotNode != cfg.pairs[j].coldNode;
        }
      }
    }
  }

  lemma OfferKept(ls: Lists, ls': Lists, cfg: Config, pass: Pass, other: Pass, j: int)
    requires ValidConfig(cfg) && Complete(ls, cfg) && RestKept(ls, ls', cfg, other) && other != pass
    requires 0 <= j < |cfg.pairs|
    ensures SameOffer(ls, ls', cfg, pass, j)
  {
    forall r, p | 0 <= r < Rows(cfg, pass) && 0 <= p < |cfg.pids|
      ensures ListAt(ls, Src(cfg, pass, j, r, p)) == ListAt(ls', Src(cfg, pass, j, r, p))
    {
      OtherPassKeeps(cfg, pass, other, j, r, p);
      CellsExist(ls, cfg, pass, j, r, p);
    }
  }

  // ----- the result of a round

  /** Every bucket offered in `pass` has lost exactly its chunk. */
  ghost predicate Drained(ls0: Lists, ls: Lists, cfg: Config, pass: Pass, j: int, cap: int)
    requires 0 <= j < |cfg.pairs|
  {
    forall r, p :: 0 <= r < Rows(cfg, pass) && 0 <= p < |cfg.pids| ==>
      ListAt(ls, Src(cfg, pass, j, r, p))
      == ListAt(ls0, Src(cfg, pass, j, r, p))[|Chunk(ls0, cfg, pass, j, cap, r, p)|..]
  }

  ghost function Collected(ls0: Lists, cfg: Config, pass: Pass, j: int, cap: int, p: int): seq<PageRef>
    requires 0 <= j < |cfg.pairs| && 0 <= p < |cfg.pids| && 0 <= Rows(cfg, pass)
  {
    Grabbed(ls0, cfg, pass, j, cap, p, Rows(cfg, pass))
  }

  /** The lists of pair `j` after a round whose caps are those of ledger `l`. */
  ghost predicate PairResult(ls0: Lists, ls: Lists, cfg: Config, j: int, l: NodeCtrl)
    requires 0 <= j < |cfg.pairs| && 0 <= cfg.threshold <= cfg.maxCount + 1
  {
    && Drained(ls0, ls, cfg, HotMove, j, l.hotMove.cap)
    && Drained(ls0, ls, cfg, Prefetch, j, l.prefetch.cap)
    && Drained(ls0, ls, cfg, ColdMove, j, l.coldMove.cap)
    && (forall p :: 0 <= p < |cfg.pids| ==>
          && ListAt(ls, Hot(cfg.pids[p], j))
             == Collected(ls0, cfg, Prefetch, j, l.prefetch.cap, p)
              + (Collected(ls0, cfg, HotMove, j, l.hotMove.cap, p) + ListAt(ls0, Hot(cfg.pids[p], j)))
          && ListAt(ls, Cold(cfg.pids[p], j))
             == Collected(ls0, cfg, ColdMove, j, l.coldMove.cap, p) + ListAt(ls0, Cold(cfg.pids[p], j)))
    && Bytes(ls, cfg, HotMove, j, |cfg.pids|)
       == Bytes(ls0, cfg, HotMove, j, |cfg.pids|)
        + Total(Fit(Offered(ls0, cfg, HotMove, j), l.hotMove.cap))
        + Total(Fit(Offered(ls0, cfg, Prefetch, j), l.prefetch.cap))
    && Bytes(ls, cfg, ColdMove, j, |cfg.pids|)
       == Bytes(ls0, cfg, ColdMove, j, |cfg.pids|)
        + Total(Fit(Offered(ls0, cfg, ColdMove, j), l.coldMove.cap))
  }

  /** The ledger of pair `j` after a round over lists `ls0`. */
  ghost function FinalLedger(n: NodeCtrl, ls0: Lists, cfg: Config, j: int): NodeCtrl
    requires 0 <= j < |cfg.pairs| && 0 <= cfg.threshold <= cfg.maxCount + 1
  {
    AfterCold(n, Total(Offered(ls0, cfg, HotMove, j)), Total(Offered(ls0, cfg, Prefetch, j)), Total(Offered(ls0, cfg, ColdMove, j)))
  }

  /** One finished pass as its later readers see it. */
  ghost predicate Finished(ls: Lists, ls': Lists, cfg: Config, pass: Pass, j: int, c: Cap)
    requires 0 <= j < |cfg.pairs|
  {
    && RestKept(ls, ls', cfg, pass) && 0 <= Rows(cfg, pass)
    && Progress(ls, ls', cfg, pass, j, c, Rows(cfg, pass), 0)
  }

  /** What a finished pass over `ls` did, told in terms of the round's first lists `ls0`. */
  lemma FinishedFrom(ls0: Lists, ls: Lists, ls': Lists, cfg: Config, pass: Pass, j: int, c: Cap)
    requires ValidConfig(cfg) && 0 <= j < |cfg.pairs| && Finished(ls, ls', cfg, pass, j, c) && 0 <= c.cap
    requires SameOffer(ls0, ls, cfg, pass, j)
    ensures Drained(ls0, ls', cfg, pass, j, c.cap)
    ensures Offered(ls0, cfg, pass, j) == Offered(ls, cfg, pass, j)
    ensures forall p :: 0 <= p < |cfg.pids| ==>
      ListAt(ls', Dst(cfg, pass, j, p)) == Collected(ls0, cfg, pass, j, c.cap, p) + ListAt(ls, Dst(cfg, pass, j, p))
    ensures Bytes(ls', cfg, pass, j, |cfg.pids|)
         == Bytes(ls, cfg, pass, j, |cfg.pids|) + Total(Fit(Offered(ls0, cfg, pass, j), c.cap))
  {
    BeforeSame(ls0, ls, cfg, pass, j, Rows(cfg, pass), 0);
    forall r, p | 0 <= r < Rows(cfg, pass) && 0 <= p < |cfg.pids|
      ensures ListAt(ls', Src(cfg, pass, j, r, p))
           == ListAt(ls0, Src(cfg, pass, j, r, p))[|Chunk(ls0, cfg, pass, j, c.cap, r, p)|..]
    {
      assert CellOk(ls, ls', cfg, pass, j, c.cap, Rows(cfg, pass), 0, r, p);
      ChunkSame(ls0, ls, cfg, pass, j, c.cap, r, p);
    }
    forall p | 0 <= p < |cfg.pids|
      ensures ListAt(ls', Dst(cfg, pass, j, p)) == Collected(ls0, cfg, pass, j, c.cap, p) + ListAt(ls, Dst(cfg, pass, j, p))
    {
      assert GradeOk(ls, ls', cfg, pass, j, c.cap, Rows(cfg, pass), 0, p);
      GrabbedSame(ls0, ls, cfg, pass, j, c.cap, p, Rows(cfg, pass));
    }
  }

  lemma DrainedKept(ls0: Lists, ls: Lists, ls': Lists, cfg: Config, pass: Pass, j: int, cap: int)
    requires 0 <= j < |cfg.pairs| && Drained(ls0, ls, cfg, pass, j, cap) && SameOffer(ls, ls', cfg, pass, j)
    ensures Drained(ls0, ls', cfg, pass, j, cap)
  {
  }

  /** Passes collecting into different lists leave each other's lists and bytes alone. */
  lemma GradesKept(ls: Lists, ls': Lists, cfg: Config, pass: Pass, other: Pass, j: int)
    requires Complete(ls, cfg) && 0 <= j < |cfg.pairs| && RestKept(ls, ls', cfg, other)
    requires (pass == ColdMove) != (other == ColdMove)
    ensures forall p :: 0 <= p < |cfg.pids| ==> ListAt(ls, Dst(cfg, pass, j, p)) == ListAt(ls', Dst(cfg, pass, j, p))
    ensures Bytes(ls, cfg, pass, j, |cfg.pids|) == Bytes(ls', cfg, pass, j, |cfg.pids|)
  {
    forall p | 0 <= p < |cfg.pids|
      ensures ListAt(ls, Dst(cfg, pass, j, p)) == ListAt(ls', Dst(cfg, pass, j, p))
    {
      assert cfg.pids[p] in cfg.pids;
      assert !Touched(cfg, other, Dst(cfg, pass, j, p));
    }
    BytesSame(ls, ls', cfg, pass, j, |cfg.pids|);
  }

  lemma {:induction false} BytesOfHot(ls: Lists, cfg: Config, j: int, n: int)
    requires 0 <= j < |cfg.pairs| && 0 <= n <= |cfg.pids|
    ensures Bytes(ls, cfg, HotMove, j, n) == Bytes(ls, cfg, Prefetch, j, n)
  {
    if n > 0 {
      BytesOfHot(ls, cfg, j, n - 1);
    }
  }

  lemma SameOfferChain(a: Lists, b: Lists, c: Lists, cfg: Config, pass: Pass, j: int)
    requires 0 <= j < |cfg.pairs| && SameOffer(a, b, cfg, pass, j) && SameOffer(b, c, cfg, pass, j)
    ensures SameOffer(a, c, cfg, pass, j)
  {
  }

  /** Three passes in a row. */
  lemma ThreePasses(ls0: Lists, ls1: Lists, ls2: Lists, ls3: Lists, cfg: Config, j: int, l: NodeCtrl)
    requires ValidConfig(cfg) && Complete(ls0, cfg) && Complete(ls1, cfg) && Complete(ls2, cfg) && 0 <= j < |cfg.pairs|
    requires 0 <= l.hotMove.cap && 0 <= l.prefetch.cap && 0 <= l.coldMove.cap
    requires Finished(ls0, ls1, cfg, HotMove, j, l.hotMove)
    requires Finished(ls1, ls2, cfg, Prefetch, j, l.prefetch)
    requires Finished(ls2, ls3, cfg, ColdMove, j, l.coldMove)
    ensures PairResult(ls0, ls3, cfg, j, l)
  {
    hide Complete;
    hide Progress;
    hide Drained;
    hide Grabbed;
    hide Bytes;
    hide SameOffer;
    hide Before;
    OfferKept(ls0, ls1, cfg, Prefetch, HotMove, j);
    OfferKept(ls0, ls1, cfg, ColdMove, HotMove, j);
    OfferKept(ls1, ls2, cfg, ColdMove, Prefetch, j);
    OfferKept(ls1, ls2, cfg, HotMove, Prefetch, j);
    OfferKept(ls2, ls3, cfg, HotMove, ColdMove, j);
    OfferKept(ls2, ls3, cfg, Prefetch, ColdMove, j);
    SameOfferChain(ls0, ls1, ls2, cfg, ColdMove, j);
    SelfOffer(ls0, cfg, HotMove, j);
    FinishedFrom(ls0, ls0, ls1, cfg, HotMove, j, l.hotMove);
    FinishedFrom(ls0, ls1, ls2, cfg, Prefetch, j, l.prefetch);
    FinishedFrom(ls0, ls2, ls3, cfg, ColdMove, j, l.coldMove);
    DrainedKept(ls0, ls1, ls2, cfg, HotMove, j, l.hotMove.cap);
    DrainedKept(ls0, ls2, ls3, cfg, HotMove, j, l.hotMove.cap);
    DrainedKept(ls0, ls2, ls3, cfg, Prefetch, j, l.prefetch.cap);
    GradesKept(ls0, ls1, cfg, ColdMove, HotMove, j);
    GradesKept(ls1, ls2, cfg, ColdMove, Prefetch, j);
    GradesKept(ls2, ls3, cfg, Prefetch, ColdMove, j);
    BytesOfHot(ls1, cfg, j, |cfg.pids|);
    BytesOfHot(ls3, cfg, j, |cfg.pids|);
    forall p | 0 <= p < |cfg.pids|
      ensures ListAt(ls3, Hot(cfg.pids[p], j))
             == Collected(ls0, cfg, Prefetch, j, l.prefetch.cap, p)
              + (Collected(ls0, cfg, HotMove, j, l.hotMove.cap, p) + ListAt(ls0, Hot(cfg.pids[p], j)))
      ensures ListAt(ls3, Cold(cfg.pids[p], j))
             == Collected(ls0, cfg, ColdMove, j, l.coldMove.cap, p) + ListAt(ls0, Cold(cfg.pids[p], j))
    {
      assert Dst(cfg, HotMove, j, p) == Dst(cfg, Prefetch, j, p) == Hot(cfg.pids[p], j);
      assert Dst(cfg, ColdMove, j, p) == Cold(cfg.pids[p], j);
    }
  }

  lemma SelfOffer(ls: Lists, cfg: Config, pass: Pass, j: int)
    requires 0 <= j < |cfg.pairs|
    ensures SameOffer(ls, ls, cfg, pass, j)
  {
  }

  /** Lists that no pass may change are as they were. */
  ghost predicate OthersKept(ls0: Lists, ls: Lists, cfg: Config) {
    && ls.Keys == ls0.Keys
    && forall id :: id in ls0 && !Touched(cfg, HotMove, id) && !Touched(cfg, Prefetch, id) && !Touched(cfg, ColdMove, id)
         ==> ls[id] == ls0[id]
  }

  lemma KeptThrice(ls0: Lists, ls1: Lists, ls2: Lists, ls3: Lists, cfg: Config)
    requires RestKept(ls0, ls1, cfg, HotMove) && RestKept(ls1, ls2, cfg, Prefetch) && RestKept(ls2, ls3, cfg, ColdMove)
    ensures OthersKept(ls0, ls3, cfg)
  {
    hide Touched;
  }

  /** `cslide_filter_pfs`: move hot pages, prefetch, move cold pages. */
  method FilterPages(store: PageStore, cfg: Config, figures: seq<NodeCtrl>) returns (ledgers: seq<NodeCtrl>)
    requires store.Valid() && ValidConfig(cfg) && Complete(store.lists, cfg)
    requires |figures| == |cfg.pairs| && forall j :: 0 <= j < |figures| ==> Fresh(figures[j])
    modifies store`head, store`tail, store`size, store`lists, store`owner, store.pages
    ensures store.Valid() && store.lists.Keys == old(store.lists).Keys
    ensures |ledgers| == |cfg.pairs|
    ensures forall j :: 0 <= j < |cfg.pairs| ==>
      && ledgers[j] == FinalLedger(figures[j], old(store.lists), cfg, j)
      && PairResult(old(store.lists), store.lists, cfg, j, ledgers[j])
    ensures OthersKept(old(store.lists), store.lists, cfg)
  {
    hide Good;
    hide Progress;
    hide Complete;
    hide PairResult;
    hide Fresh;
    hide RunPass;
    hide Cal;
    hide Paired;
    var ctrl := new FlowCtrl(figures);
    var round := new Round(store, ctrl, cfg);
    ghost var ls0 := store.lists;
    CapsForHot(figures);
    round.DoFilter(HotMove);
    ghost var ls1, n1 := store.lists, ctrl.nodes;
    CapsForPrefetch(figures, ls0, cfg, n1);
    round.DoFilter(Prefetch);
    ghost var ls2, n2 := store.lists, ctrl.nodes;
    CapsForCold(figures, ls0, ls1, cfg, n1, n2);
    round.DoFilter(ColdMove);
    ledgers := ctrl.nodes;
    KeptThrice(ls0, ls1, ls2, store.lists, cfg);
    forall j | 0 <= j < |cfg.pairs|
      ensures ledgers[j] == FinalLedger(figures[j], ls0, cfg, j) && PairResult(ls0, store.lists, cfg, j, ledgers[j])
    {
      RoundOfPair(figures[j], ls0, ls1, ls2, store.lists, cfg, j, n1[j], n2[j], ledgers[j]);
    }
  }

  lemma CapsForHot(figures: seq<NodeCtrl>)
    requires forall j :: 0 <= j < |figures| ==> Fresh(figures[j])
    ensures forall j :: 0 <= j < |figures| ==>
      CapOf(Cal(figures[j], HotMove), HotMove).used == 0 <= CapOf(Cal(figures[j], HotMove), HotMove).cap
  {
  }

  lemma CapsForPrefetch(figures: seq<NodeCtrl>, ls0: Lists, cfg: Config, n1: seq<NodeCtrl>)
    requires ValidConfig(cfg) && |figures| == |n1| == |cfg.pairs|
    requires forall j :: 0 <= j < |figures| ==>
      Fresh(figures[j]) && n1[j] == RunPass(figures[j], HotMove, Total(Offered(ls0, cfg, HotMove, j)))
    ensures forall j :: 0 <= j < |n1| ==>
      CapOf(Cal(n1[j], Prefetch), Prefetch).used == 0 <= CapOf(Cal(n1[j], Prefetch), Prefetch).cap
  {
    forall j | 0 <= j < |n1|
      ensures CapOf(Cal(n1[j], Prefetch), Prefetch).used == 0 <= CapOf(Cal(n1[j], Prefetch), Prefetch).cap
    {
      PrefetchPass(figures[j], Total(Offered(ls0, cfg, HotMove, j)), 0);
    }
  }

  lemma CapsForCold(figures: seq<NodeCtrl>, ls0: Lists, ls1: Lists, cfg: Config, n1: seq<NodeCtrl>, n2: seq<NodeCtrl>)
    requires ValidConfig(cfg) && |figures| == |n1| == |n2| == |cfg.pairs|
    requires forall j :: 0 <= j < |figures| ==>
      && Fresh(figures[j]) && n1[j] == RunPass(figures[j], HotMove, Total(Offered(ls0, cfg, HotMove, j)))
      && n2[j] == RunPass(n1[j], Prefetch, Total(Offered(ls1, cfg, Prefetch, j)))
    ensures forall j :: 0 <= j < |n2| ==>
      CapOf(Cal(n2[j], ColdMove), ColdMove).used == 0 <= CapOf(Cal(n2[j], ColdMove), ColdMove).cap
  {
    forall j | 0 <= j < |n2|
      ensures CapOf(Cal(n2[j], ColdMove), ColdMove).used == 0 <= CapOf(Cal(n2[j], ColdMove), ColdMove).cap
    {
      QuotaSafe(figures[j], Total(Offered(ls0, cfg, HotMove, j)), Total(Offered(ls1, cfg, Prefetch, j)), 0);
    }
  }

  lemma RoundOfPair(n: NodeCtrl, ls0: Lists, ls1: Lists, ls2: Lists, ls3: Lists, cfg: Config, j: int,
                    n1: NodeCtrl, n2: NodeCtrl, n3: NodeCtrl)
    requires ValidConfig(cfg) && Complete(ls0, cfg) && Complete(ls1, cfg) && Complete(ls2, cfg) && 0 <= j < |cfg.pairs|
    requires Fresh(n)
    requires n1 == RunPass(n, HotMove, Total(Offered(ls0, cfg, HotMove, j)))
    requires n2 == RunPass(n1, Prefetch, Total(Offered(ls1, cfg, Prefetch, j)))
    requires n3 == RunPass(n2, ColdMove, Total(Offered(ls2, cfg, ColdMove, j)))
    requires Finished(ls0, ls1, cfg, HotMove, j, n1.hotMove)
    requires Finished(ls1, ls2, cfg, Prefetch, j, n2.prefetch)
    requires Finished(ls2, ls3, cfg, ColdMove, j, n3.coldMove)
    ensures n3 == FinalLedger(n, ls0, cfg, j) && PairResult(ls0, ls3, cfg, j, n3)
  {
    hide Complete;
    hide Progress;
    hide PairResult;
    hide RestKept;
    hide Before;
    hide SameOffer;
    var a, b, c := Total(Offered(ls0, cfg, HotMove, j)), Total(Offered(ls1, cfg, Prefetch, j)), Total(Offered(ls2, cfg, ColdMove, j));
    OfferKept(ls0, ls1, cfg, Prefetch, HotMove, j);
    OfferKept(ls0, ls1, cfg, ColdMove, HotMove, j);
    OfferKept(ls1, ls2, cfg, ColdMove, Prefetch, j);
    SameOfferChain(ls0, ls1, ls2, cfg, ColdMove, j);
    BeforeSame(ls0, ls1, cfg, Prefetch, j, Rows(cfg, Prefetch), 0);
    BeforeSame(ls0, ls2, cfg, ColdMove, j, Rows(cfg, ColdMove), 0);
    HotPass(n, a);
    PrefetchPass(n, a, b);
    QuotaSafe(n, a, b, c);
    assert n3.hotMove == n1.hotMove && n3.prefetch == n2.prefetch;
    ThreePasses(ls0, ls1, ls2, ls3, cfg, j, n3);
  }

  // ----- what the selection guarantees

  /** Bytes selected to move to, and away from, the hot node of pair `j`. */
  ghost function HotBytes(ls: Lists, cfg: Config, j: int): nat
    requires 0 <= j < |cfg.pairs|
  {
    Bytes(ls, cfg, HotMove, j, |cfg.pids|)
  }

  ghost function ColdBytes(ls: Lists, cfg: Config, j: int): nat
    requires 0 <= j < |cfg.pairs|
  {
    Bytes(ls, cfg, ColdMove, j, |cfg.pids|)
  }

  /** A round that starts with nothing selected never selects more than the pair's quota. */
  lemma QuotaNeverExceeded(n: NodeCtrl, ls0: Lists, ls: Lists, cfg: Config, j: int)
    requires ValidConfig(cfg) && 0 <= j < |cfg.pairs| && Fresh(n)
    requires PairResult(ls0, ls, cfg, j, FinalLedger(n, ls0, cfg, j))
    requires HotBytes(ls0, cfg, j) == ColdBytes(ls0, cfg, j) == 0
    ensures HotBytes(ls, cfg, j) + ColdBytes(ls, cfg, j) <= n.quota
  {
    hide Drained;
    hide Before;
    hide Total;
    hide Collected;
    var a, b, c := Offered(ls0, cfg, HotMove, j), Offered(ls0, cfg, Prefetch, j), Offered(ls0, cfg, ColdMove, j);
    var l := FinalLedger(n, ls0, cfg, j);
    HotPass(n, Total(a));
    PrefetchPass(n, Total(a), Total(b));
    QuotaSafe(n, Total(a), Total(b), Total(c));
    FitCharged(a, l.hotMove.cap);
    FitCharged(b, l.prefetch.cap);
    FitCharged(c, l.coldMove.cap);
  }

  lemma FitCharged(s: seq<PageRef>, cap: nat)
    ensures Total(Fit(s, cap)) <= Min(cap, Total(s))
  {
    FitWithin(s, cap);
    TotalSplit(s, FitLen(s, cap));
  }

  ghost predicate AllOfSize(ls: Lists, size: nat) {
    forall id, i :: id in ls && 0 <= i < |ls[id]| ==> ls[id][i].size == size
  }

  lemma {:induction false} OfferedUniform(ls: Lists, cfg: Config, pass: Pass, j: int, ci: int, pi: int, size: nat)
    requires 0 <= j < |cfg.pairs| && 0 <= ci && 0 <= pi <= |cfg.pids| && AllOfSize(ls, size)
    ensures Uniform(Before(ls, cfg, pass, j, ci, pi), size)
    decreases ci, pi
  {
    if pi > 0 {
      OfferedUniform(ls, cfg, pass, j, ci, pi - 1, size);
    } else if ci > 0 {
      OfferedUniform(ls, cfg, pass, j, ci - 1, |cfg.pids|, size);
    }
  }

  /** With pages of one size, and room that fits them, the selected pages fit: after the moves neither
      node of the pair holds more than it has room for. */
  lemma NodesNeverOverfilled(n: NodeCtrl, ls0: Lists, ls: Lists, cfg: Config, j: int, size: nat)
    requires ValidConfig(cfg) && 0 <= j < |cfg.pairs| && Fresh(n)
    requires PairResult(ls0, ls, cfg, j, FinalLedger(n, ls0, cfg, j))
    requires HotBytes(ls0, cfg, j) == ColdBytes(ls0, cfg, j) == 0
    requires size > 0 && AllOfSize(ls0, size) && RoomFits(n.free, n.coldFree, size)
    requires n.cold <= Total(Offered(ls0, cfg, ColdMove, j))
    ensures HotBytes(ls, cfg, j) - ColdBytes(ls, cfg, j) <= n.free
    ensures ColdBytes(ls, cfg, j) - HotBytes(ls, cfg, j) <= n.coldFree
  {
    OfferedUniform(ls0, cfg, HotMove, j, Rows(cfg, HotMove), 0, size);
    OfferedUniform(ls0, cfg, Prefetch, j, Rows(cfg, Prefetch), 0, size);
    OfferedUniform(ls0, cfg, ColdMove, j, Rows(cfg, ColdMove), 0, size);
    NoOverfill(n, Offered(ls0, cfg, HotMove, j), Offered(ls0, cfg, Prefetch, j), Offered(ls0, cfg, ColdMove, j), size);
  }
}
