/**
 What one filter pass does to the lists, stated without its loops: per pair, the pages that move are
 the longest prefix, in (count, process, list) order, that fits into the pair's cap.
 */
module PassSpec {
  import opened Pages
  import opened PageStores
  import opened FlowControl
  import opened NodePairs

  /** What a round is run with: the working processes, the node pairs, the largest possible access
      count (`loop * MAX_ACCESS_WEIGHT`) and the hot threshold. */
  datatype Config = Config(pids: seq<int>, pairs: seq<NodePair>, maxCount: int, threshold: int)

  ghost predicate ValidConfig(cfg: Config) {
    && (forall i, k :: 0 <= i < k < |cfg.pids| ==> cfg.pids[i] != cfg.pids[k])
    && Paired(cfg.pairs)
    && 0 <= cfg.threshold <= cfg.maxCount + 1
  }

  const MAX_ACCESS_WEIGHT := 3

  predicate HotCount(count: int, threshold: int) {
    count >= threshold
  }

  /** `fill_hot_threshold`: a negative threshold is refused, a large one cut to one more than any count.
      The cut changes no decision about a page, and keeps every count a pass looks at in range. */
  method FillHotThreshold(t: int, loop: nat) returns (ret: int, threshold: int)
    ensures ret == 0 || ret == -1
    ensures ret == 0 <==> t >= 0
    ensures ret == 0 ==> 0 <= threshold <= loop * MAX_ACCESS_WEIGHT + 1
    ensures ret == 0 ==> forall c :: 0 <= c <= loop * MAX_ACCESS_WEIGHT ==> (HotCount(c, t) <==> HotCount(c, threshold))
  {
    ret, threshold := 0, t;
    if threshold < 0 {
      return -1, t;
    }
    if threshold > loop * MAX_ACCESS_WEIGHT + 1 {
      threshold := loop * MAX_ACCESS_WEIGHT + 1;
    }
  }

  /** First count a pass looks at, the count it stops before, and its step. */
  function CountStart(cfg: Config, pass: Pass): int {
    match pass
    case HotMove => cfg.maxCount
    case Prefetch => cfg.threshold - 1
    case ColdMove => 0
  }

  function CountEnd(cfg: Config, pass: Pass): int {
    match pass
    case HotMove => cfg.threshold - 1
    case Prefetch => -1
    case ColdMove => cfg.threshold
  }

  function CountStep(pass: Pass): int {
    if pass == ColdMove then 1 else -1
  }

  function Rows(cfg: Config, pass: Pass): int {
    if pass == HotMove then cfg.maxCount - cfg.threshold + 1 else cfg.threshold
  }

  function CountAt(cfg: Config, pass: Pass, ci: int): int {
    if pass == ColdMove then ci else CountStart(cfg, pass) - ci
  }

  /** Hot and prefetched pages come from the pair's cold node, cold ones from its hot node. */
  function SrcNode(cfg: Config, pass: Pass, j: int): int
    requires 0 <= j < |cfg.pairs|
  {
    if pass == ColdMove then cfg.pairs[j].hotNode else cfg.pairs[j].coldNode
  }

  function Src(cfg: Config, pass: Pass, j: int, ci: int, pi: int): ListId
    requires 0 <= j < |cfg.pairs| && 0 <= pi < |cfg.pids|
  {
    Bucket(cfg.pids[pi], CountAt(cfg, pass, ci), SrcNode(cfg, pass, j))
  }

  function Dst(cfg: Config, pass: Pass, j: int, pi: int): ListId
    requires 0 <= j < |cfg.pairs| && 0 <= pi < |cfg.pids|
  {
    if pass == ColdMove then Cold(cfg.pids[pi], j) else Hot(cfg.pids[pi], j)
  }

  /** Every list a round may look at exists. */
  ghost predicate Complete(ls: Lists, cfg: Config) {
    && (forall p, c, n :: p in cfg.pids && 0 <= c <= cfg.maxCount && IsNode(cfg.pairs, n) ==> Bucket(p, c, n) in ls)
    && (forall p, j :: p in cfg.pids && 0 <= j < |cfg.pairs| ==> Hot(p, j) in ls && Cold(p, j) in ls)
  }

  lemma CellsExist(ls: Lists, cfg: Config, pass: Pass, j: int, ci: int, pi: int)
    requires ValidConfig(cfg) && Complete(ls, cfg)
    requires 0 <= j < |cfg.pairs| && 0 <= ci < Rows(cfg, pass) && 0 <= pi < |cfg.pids|
    ensures Src(cfg, pass, j, ci, pi) in ls && Dst(cfg, pass, j, pi) in ls
    ensures 0 <= CountAt(cfg, pass, ci) <= cfg.maxCount
  {
    assert cfg.pids[pi] in cfg.pids;
    assert IsNode(cfg.pairs, SrcNode(cfg, pass, j));
  }

  /** The pages of pair `j` in the order a pass offers them, up to row `ci` (exclusive) and, in that
      row, process `pi` (exclusive). */
  ghost function Before(ls: Lists, cfg: Config, pass: Pass, j: int, ci: int, pi: int): seq<PageRef>
    requires 0 <= j < |cfg.pairs| && 0 <= ci && 0 <= pi <= |cfg.pids|
    decreases ci, pi
  {
    if pi > 0 then Before(ls, cfg, pass, j, ci, pi - 1) + ListAt(ls, Src(cfg, pass, j, ci, pi - 1))
    else if ci > 0 then Before(ls, cfg, pass, j, ci - 1, |cfg.pids|)
    else []
  }

  /** All pages pair `j` may move in a pass, in priority order. */
  ghost function Offered(ls: Lists, cfg: Config, pass: Pass, j: int): seq<PageRef>
    requires 0 <= j < |cfg.pairs| && 0 <= Rows(cfg, pass)
  {
    Before(ls, cfg, pass, j, Rows(cfg, pass), 0)
  }

  /** What a cap leaves to take from one bucket, given all the pages offered before it. */
  ghost function Chunk(ls: Lists, cfg: Config, pass: Pass, j: int, cap: int, ci: int, pi: int): seq<PageRef>
    requires 0 <= j < |cfg.pairs| && 0 <= ci && 0 <= pi < |cfg.pids|
  {
    Fit(ListAt(ls, Src(cfg, pass, j, ci, pi)), cap - Total(Before(ls, cfg, pass, j, ci, pi)))
  }

  /** The chunks taken so far, in the order they were offered. */
  ghost function Taken(ls: Lists, cfg: Config, pass: Pass, j: int, cap: int, ci: int, pi: int): seq<PageRef>
    requires 0 <= j < |cfg.pairs| && 0 <= ci && 0 <= pi <= |cfg.pids|
    decreases ci, pi
  {
    if pi > 0 then Taken(ls, cfg, pass, j, cap, ci, pi - 1) + Chunk(ls, cfg, pass, j, cap, ci, pi - 1)
    else if ci > 0 then Taken(ls, cfg, pass, j, cap, ci - 1, |cfg.pids|)
    else []
  }

  /** Bucket by bucket is the same as the longest fitting prefix of everything offered. */
  lemma {:induction false} TakenIsLongestPrefix(ls: Lists, cfg: Config, pass: Pass, j: int, cap: nat, ci: int, pi: int)
    requires 0 <= j < |cfg.pairs| && 0 <= ci && 0 <= pi <= |cfg.pids|
    ensures Taken(ls, cfg, pass, j, cap, ci, pi) == Fit(Before(ls, cfg, pass, j, ci, pi), cap)
    decreases ci, pi
  {
    if pi > 0 {
      TakenIsLongestPrefix(ls, cfg, pass, j, cap, ci, pi - 1);
      FitConcat(Before(ls, cfg, pass, j, ci, pi - 1), ListAt(ls, Src(cfg, pass, j, ci, pi - 1)), cap);
    } else if ci > 0 {
      TakenIsLongestPrefix(ls, cfg, pass, j, cap, ci - 1, |cfg.pids|);
    }
  }

  /** Chunks of process `pi` from the first `rows` rows; the latest chunk is in front, its pages in order. */
  ghost function Grabbed(ls: Lists, cfg: Config, pass: Pass, j: int, cap: int, pi: int, rows: int): seq<PageRef>
    requires 0 <= j < |cfg.pairs| && 0 <= pi < |cfg.pids| && 0 <= rows
    decreases rows
  {
    if rows == 0 then []
    else Chunk(ls, cfg, pass, j, cap, rows - 1, pi) + Grabbed(ls, cfg, pass, j, cap, pi, rows - 1)
  }

  ghost predicate Reached(ci: int, pi: int, c: int, p: int) {
    c < ci || (c == ci && p < pi)
  }

  /** What is left in one bucket once the pass has offered everything before row `ci`, process `pi`. */
  ghost predicate CellOk(ls0: Lists, ls: Lists, cfg: Config, pass: Pass, j: int, cap: int, ci: int, pi: int, c: int, p: int)
    requires 0 <= j < |cfg.pairs| && 0 <= c && 0 <= p < |cfg.pids|
  {
    var id := Src(cfg, pass, j, c, p);
    && id in ls0 && id in ls
    && ls[id] == if Reached(ci, pi, c, p) then ls0[id][|Chunk(ls0, cfg, pass, j, cap, c, p)|..] else ls0[id]
  }

  /** What has been collected for one process. */
  ghost predicate GradeOk(ls0: Lists, ls: Lists, cfg: Config, pass: Pass, j: int, cap: int, ci: int, pi: int, p: int)
    requires 0 <= j < |cfg.pairs| && 0 <= ci && 0 <= p < |cfg.pids|
  {
    var id := Dst(cfg, pass, j, p);
    && id in ls0 && id in ls
    && ls[id] == Grabbed(ls0, cfg, pass, j, cap, p, if p < pi then ci + 1 else ci) + ls0[id]
  }

  /** Bytes collected for pair `j` over the first `n` processes. */
  ghost function Bytes(ls: Lists, cfg: Config, pass: Pass, j: int, n: int): nat
    requires 0 <= j < |cfg.pairs| && 0 <= n <= |cfg.pids|
  {
    if n == 0 then 0 else Bytes(ls, cfg, pass, j, n - 1) + Total(ListAt(ls, Dst(cfg, pass, j, n - 1)))
  }

  ghost predicate CellsOk(ls0: Lists, ls: Lists, cfg: Config, pass: Pass, j: int, cap: int, ci: int, pi: int)
    requires 0 <= j < |cfg.pairs|
  {
    forall r, p :: 0 <= r < Rows(cfg, pass) && 0 <= p < |cfg.pids| ==> CellOk(ls0, ls, cfg, pass, j, cap, ci, pi, r, p)
  }

  ghost predicate GradesOk(ls0: Lists, ls: Lists, cfg: Config, pass: Pass, j: int, cap: int, ci: int, pi: int)
    requires 0 <= j < |cfg.pairs| && 0 <= ci
  {
    forall p :: 0 <= p < |cfg.pids| ==> GradeOk(ls0, ls, cfg, pass, j, cap, ci, pi, p)
  }

  /** The state of pair `j` when a pass over lists `ls0` has offered everything before (`ci`, `pi`). */
  ghost predicate Progress(ls0: Lists, ls: Lists, cfg: Config, pass: Pass, j: int, c: Cap, ci: int, pi: int)
    requires 0 <= j < |cfg.pairs| && 0 <= ci && 0 <= pi <= |cfg.pids|
  {
    && c.used == Min(c.cap, Total(Before(ls0, cfg, pass, j, ci, pi)))
    && CellsOk(ls0, ls, cfg, pass, j, c.cap, ci, pi)
    && GradesOk(ls0, ls, cfg, pass, j, c.cap, ci, pi)
    && Bytes(ls, cfg, pass, j, |cfg.pids|)
       == Bytes(ls0, cfg, pass, j, |cfg.pids|) + Total(Fit(Before(ls0, cfg, pass, j, ci, pi), c.cap))
  }

  lemma {:induction false} BytesSame(ls: Lists, ls': Lists, cfg: Config, pass: Pass, j: int, n: int)
    requires 0 <= j < |cfg.pairs| && 0 <= n <= |cfg.pids|
    requires forall p :: 0 <= p < n ==> ListAt(ls, Dst(cfg, pass, j, p)) == ListAt(ls', Dst(cfg, pass, j, p))
    ensures Bytes(ls, cfg, pass, j, n) == Bytes(ls', cfg, pass, j, n)
  {
    if n > 0 {
      BytesSame(ls, ls', cfg, pass, j, n - 1);
    }
  }

  lemma {:induction false} BytesGrow(ls: Lists, ls': Lists, cfg: Config, pass: Pass, j: int, n: int, pi: int, chunk: seq<PageRef>)
    requires 0 <= j < |cfg.pairs| && 0 <= pi < n <= |cfg.pids|
    requires forall p :: 0 <= p < n && p != pi ==> ListAt(ls, Dst(cfg, pass, j, p)) == ListAt(ls', Dst(cfg, pass, j, p))
    requires ListAt(ls', Dst(cfg, pass, j, pi)) == chunk + ListAt(ls, Dst(cfg, pass, j, pi))
    ensures Bytes(ls', cfg, pass, j, n) == Bytes(ls, cfg, pass, j, n) + Total(chunk)
  {
    hide Total;
    hide Dst;
    hide ListAt;
    if n - 1 == pi {
      BytesSame(ls, ls', cfg, pass, j, n - 1);
      TotalAppend(chunk, ListAt(ls, Dst(cfg, pass, j, pi)));
    } else {
      BytesGrow(ls, ls', cfg, pass, j, n - 1, pi, chunk);
    }
  }

  lemma ProgressStart(ls: Lists, cfg: Config, pass: Pass, j: int, cap: nat)
    requires ValidConfig(cfg) && Complete(ls, cfg) && 0 <= j < |cfg.pairs|
    ensures Progress(ls, ls, cfg, pass, j, Cap(cap, 0), 0, 0)
  {
    forall r, p | 0 <= r < Rows(cfg, pass) && 0 <= p < |cfg.pids|
      ensures CellOk(ls, ls, cfg, pass, j, cap, 0, 0, r, p) && GradeOk(ls, ls, cfg, pass, j, cap, 0, 0, p)
    {
      CellsExist(ls, cfg, pass, j, r, p);
    }
    forall p | 0 <= p < |cfg.pids|
      ensures GradeOk(ls, ls, cfg, pass, j, cap, 0, 0, p)
    {
      assert cfg.pids[p] in cfg.pids;
    }
    assert Fit([], cap) == [];
  }

  lemma ProgressNextRow(ls0: Lists, ls: Lists, cfg: Config, pass: Pass, j: int, c: Cap, ci: int)
    requires 0 <= j < |cfg.pairs| && 0 <= ci
    requires Progress(ls0, ls, cfg, pass, j, c, ci, |cfg.pids|)
    ensures Progress(ls0, ls, cfg, pass, j, c, ci + 1, 0)
  {
    hide Chunk;
    hide Grabbed;
    hide Total;
    var next := ci + 1;
    forall r, p | 0 <= r < Rows(cfg, pass) && 0 <= p < |cfg.pids|
      ensures CellOk(ls0, ls, cfg, pass, j, c.cap, next, 0, r, p)
    {
      assert CellOk(ls0, ls, cfg, pass, j, c.cap, ci, |cfg.pids|, r, p);
    }
    forall p | 0 <= p < |cfg.pids|
      ensures GradeOk(ls0, ls, cfg, pass, j, c.cap, next, 0, p)
    {
      assert GradeOk(ls0, ls, cfg, pass, j, c.cap, ci, |cfg.pids|, p);
    }
  }

  /** What the controller grants for a bucket takes exactly that bucket's chunk. */
  lemma GrantTakesChunk(s: seq<PageRef>, before: nat, c: Cap)
    requires 0 <= c.cap && c.used == Min(c.cap, before)
    ensures var granted := Min(Total(s), c.cap - c.used);
      && 0 <= granted
      && FitLen(s, granted) == FitLen(s, c.cap - before)
      && c.used + granted == Min(c.cap, before + Total(s))
  {
    if before <= c.cap {
      FitAll(s, c.cap - before);
      FitAll(s, Total(s));
    } else {
      FitNone(s, c.cap - before);
      FitNone(s, 0);
    }
  }

  ghost predicate InPass(cfg: Config, pass: Pass, j: int, ci: int, pi: int) {
    0 <= j < |cfg.pairs| && 0 <= ci < Rows(cfg, pass) && 0 <= pi < |cfg.pids|
  }

  /** The lists after pair `j`'s policy call on row `ci`, process `pi`. */
  ghost function Handled(ls0: Lists, ls: Lists, cfg: Config, pass: Pass, j: int, cap: int, ci: int, pi: int): Lists
    requires InPass(cfg, pass, j, ci, pi)
    requires Src(cfg, pass, j, ci, pi) in ls && Dst(cfg, pass, j, pi) in ls
    requires |Chunk(ls0, cfg, pass, j, cap, ci, pi)| <= |ls[Src(cfg, pass, j, ci, pi)]|
  {
    Spliced(ls, Src(cfg, pass, j, ci, pi), Dst(cfg, pass, j, pi), |Chunk(ls0, cfg, pass, j, cap, ci, pi)|)
  }

  lemma ProgressCells(ls0: Lists, ls: Lists, ls': Lists, cfg: Config, pass: Pass, j: int, cap: int, ci: int, pi: int)
    requires ValidConfig(cfg) && InPass(cfg, pass, j, ci, pi) && CellsOk(ls0, ls, cfg, pass, j, cap, ci, pi)
    requires CellOk(ls0, ls, cfg, pass, j, cap, ci, pi, ci, pi) && Dst(cfg, pass, j, pi) in ls
    requires ls' == Handled(ls0, ls, cfg, pass, j, cap, ci, pi)
    ensures CellsOk(ls0, ls', cfg, pass, j, cap, ci, pi + 1)
  {
    hide Chunk;
    var next := pi + 1;
    forall r, p | 0 <= r < Rows(cfg, pass) && 0 <= p < |cfg.pids|
      ensures CellOk(ls0, ls', cfg, pass, j, cap, ci, next, r, p)
    {
      assert CellOk(ls0, ls, cfg, pass, j, cap, ci, pi, r, p);
      if r != ci || p != pi {
        assert Src(cfg, pass, j, r, p) != Src(cfg, pass, j, ci, pi);
      }
    }
  }

  lemma HandledGrade(ls0: Lists, ls: Lists, cfg: Config, pass: Pass, j: int, cap: int, ci: int, pi: int)
    requires InPass(cfg, pass, j, ci, pi) && Dst(cfg, pass, j, pi) in ls
    requires CellOk(ls0, ls, cfg, pass, j, cap, ci, pi, ci, pi)
    ensures Handled(ls0, ls, cfg, pass, j, cap, ci, pi)[Dst(cfg, pass, j, pi)]
         == Chunk(ls0, cfg, pass, j, cap, ci, pi) + ls[Dst(cfg, pass, j, pi)]
  {
  }

  lemma ProgressGrades(ls0: Lists, ls: Lists, ls': Lists, cfg: Config, pass: Pass, j: int, cap: int, ci: int, pi: int)
    requires ValidConfig(cfg) && InPass(cfg, pass, j, ci, pi) && GradesOk(ls0, ls, cfg, pass, j, cap, ci, pi)
    requires CellOk(ls0, ls, cfg, pass, j, cap, ci, pi, ci, pi) && Dst(cfg, pass, j, pi) in ls
    requires ls' == Handled(ls0, ls, cfg, pass, j, cap, ci, pi)
    ensures GradesOk(ls0, ls', cfg, pass, j, cap, ci, pi + 1)
    ensures Bytes(ls', cfg, pass, j, |cfg.pids|)
         == Bytes(ls, cfg, pass, j, |cfg.pids|) + Total(Chunk(ls0, cfg, pass, j, cap, ci, pi))
  {
    hide Bytes;
    hide Total;
    hide Chunk;
    var chunk := Chunk(ls0, cfg, pass, j, cap, ci, pi);
    var id := Dst(cfg, pass, j, pi);
    HandledGrade(ls0, ls, cfg, pass, j, cap, ci, pi);
    hide CellOk;
    var next := pi + 1;
    forall p | 0 <= p < |cfg.pids|
      ensures GradeOk(ls0, ls', cfg, pass, j, cap, ci, next, p)
      ensures p != pi ==> ListAt(ls, Dst(cfg, pass, j, p)) == ListAt(ls', Dst(cfg, pass, j, p))
    {
      assert GradeOk(ls0, ls, cfg, pass, j, cap, ci, pi, p);
      if p != pi {
        assert Dst(cfg, pass, j, p) != id;
      } else {
        assert chunk + (Grabbed(ls0, cfg, pass, j, cap, pi, ci) + ls0[id])
            == (chunk + Grabbed(ls0, cfg, pass, j, cap, pi, ci)) + ls0[id];
      }
    }
    BytesGrow(ls, ls', cfg, pass, j, |cfg.pids|, pi, chunk);
  }

  /** One policy call advances its own pair by one bucket. */
  lemma ProgressStep(ls0: Lists, ls: Lists, cfg: Config, pass: Pass, j: int, c: Cap, ci: int, pi: int) returns (ls': Lists)
    requires ValidConfig(cfg) && InPass(cfg, pass, j, ci, pi) && 0 <= c.cap
    requires Progress(ls0, ls, cfg, pass, j, c, ci, pi)
    ensures var src := Src(cfg, pass, j, ci, pi); var dst := Dst(cfg, pass, j, pi);
      && src in ls && dst in ls
      && var granted := Min(Total(ls[src]), c.cap - c.used);
      && 0 <= granted
      && ls' == Spliced(ls, src, dst, FitLen(ls[src], granted))
      && Progress(ls0, ls', cfg, pass, j, Cap(c.cap, c.used + granted), ci, pi + 1)
  {
    hide Grabbed;
    hide Bytes;
    hide FitLen;
    hide Total;
    assert CellOk(ls0, ls, cfg, pass, j, c.cap, ci, pi, ci, pi) && GradeOk(ls0, ls, cfg, pass, j, c.cap, ci, pi, pi);
    var s := ListAt(ls0, Src(cfg, pass, j, ci, pi));
    var before := Before(ls0, cfg, pass, j, ci, pi);
    GrantTakesChunk(s, Total(before), c);
    TotalAppend(before, s);
    FitConcat(before, s, c.cap);
    TotalAppend(Fit(before, c.cap), Chunk(ls0, cfg, pass, j, c.cap, ci, pi));
    ls' := Handled(ls0, ls, cfg, pass, j, c.cap, ci, pi);
    ProgressCells(ls0, ls, ls', cfg, pass, j, c.cap, ci, pi);
    ProgressGrades(ls0, ls, ls', cfg, pass, j, c.cap, ci, pi);
  }

  /** A policy call for pair `k` does not disturb pair `j`. */
  lemma ProgressFrame(ls0: Lists, ls: Lists, ls': Lists, cfg: Config, pass: Pass, j: int, c: Cap, ci: int, pi: int,
                      k: int, kr: int, kp: int, n: nat)
    requires ValidConfig(cfg) && 0 <= j < |cfg.pairs| && 0 <= ci && 0 <= pi <= |cfg.pids|
    requires InPass(cfg, pass, k, kr, kp) && k != j
    requires Src(cfg, pass, k, kr, kp) in ls && Dst(cfg, pass, k, kp) in ls && n <= |ls[Src(cfg, pass, k, kr, kp)]|
    requires ls' == Spliced(ls, Src(cfg, pass, k, kr, kp), Dst(cfg, pass, k, kp), n)
    requires Progress(ls0, ls, cfg, pass, j, c, ci, pi)
    ensures Progress(ls0, ls', cfg, pass, j, c, ci, pi)
  {
    hide Chunk;
    hide Grabbed;
    hide Total;
    hide Before;
    hide Bytes;
    assert SrcNode(cfg, pass, j) != SrcNode(cfg, pass, k);
    forall r, p | 0 <= r < Rows(cfg, pass) && 0 <= p < |cfg.pids|
      ensures CellOk(ls0, ls', cfg, pass, j, c.cap, ci, pi, r, p)
    {
      assert CellOk(ls0, ls, cfg, pass, j, c.cap, ci, pi, r, p);
    }
    forall p | 0 <= p < |cfg.pids|
      ensures GradeOk(ls0, ls', cfg, pass, j, c.cap, ci, pi, p)
      ensures ListAt(ls, Dst(cfg, pass, j, p)) == ListAt(ls', Dst(cfg, pass, j, p))
    {
      assert GradeOk(ls0, ls, cfg, pass, j, c.cap, ci, pi, p);
    }
    BytesSame(ls, ls', cfg, pass, j, |cfg.pids|);
  }

  /** An exhausted pair has nothing left to do: stopping early loses nothing. */
  lemma {:induction false} ProgressSaturated(ls0: Lists, ls: Lists, cfg: Config, pass: Pass, j: int, c: Cap, ci: int, pi: int)
    requires ValidConfig(cfg) && 0 <= j < |cfg.pairs| && 0 <= ci <= Rows(cfg, pass) && 0 <= pi <= |cfg.pids|
    requires ci == Rows(cfg, pass) ==> pi == 0
    requires 0 <= c.cap == c.used && Progress(ls0, ls, cfg, pass, j, c, ci, pi)
    ensures Progress(ls0, ls, cfg, pass, j, c, Rows(cfg, pass), 0)
    decreases Rows(cfg, pass) - ci, |cfg.pids| - pi
  {
    hide Progress;
    hide Total;
    hide ValidConfig;
    if ci < Rows(cfg, pass) {
      if pi == |cfg.pids| {
        ProgressNextRow(ls0, ls, cfg, pass, j, c, ci);
        ProgressSaturated(ls0, ls, cfg, pass, j, c, ci + 1, 0);
      } else {
        var ls' := ProgressStep(ls0, ls, cfg, pass, j, c, ci, pi);
        var src := Src(cfg, pass, j, ci, pi);
        FitNone(ls[src], 0);
        var dst := Dst(cfg, pass, j, pi);
        assert ls[src][0..] == ls[src] && [] + ls[dst] == ls[dst];
        assert ls' == ls;
        ProgressSaturated(ls0, ls, cfg, pass, j, c, ci, pi + 1);
      }
    }
  }
}
