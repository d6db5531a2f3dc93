/**
 `cslide_count_node_pfs`: the scanned pages of one process, still linked per VMA, are distributed over
 the (count, node) buckets by relinking them in place.
 */
module CslideCount {
  import opened Pages
  import opened PageStores

  /** The node the kernel reports for each page. */
  type Placement = map<PageRef, int>

  /** Pages of `s` with count `c` on node `n`, in scan order. */
  ghost function Part(s: seq<PageRef>, node: Placement, c: int, n: int): seq<PageRef> {
    if s == [] then []
    else
      var p := s[|s| - 1];
      Part(s[..|s| - 1], node, c, n) + if p.count == c && p in node && node[p] == n then [p] else []
  }

  lemma {:induction false} PartMembers(s: seq<PageRef>, node: Placement, c: int, n: int, p: PageRef)
    ensures p in Part(s, node, c, n) <==> p in s && p.count == c && p in node && node[p] == n
  {
    if s != [] {
      var q := s[|s| - 1];
      PartMembers(s[..|s| - 1], node, c, n, p);
      assert s == s[..|s| - 1] + [q];
    }
  }

  lemma {:induction false} PartNoRepeat(s: seq<PageRef>, node: Placement, c: int, n: int)
    requires NoRepeat(s)
    ensures NoRepeat(Part(s, node, c, n))
  {
    if s != [] {
      PartNoRepeat(s[..|s| - 1], node, c, n);
      PartMembers(s[..|s| - 1], node, c, n, s[|s| - 1]);
    }
  }

  /** The bucket fields and all links, at one moment. */
  datatype Raw = Raw(head: map<ListId, PageRef?>, tail: map<ListId, PageRef?>, size: map<ListId, int>, num: map<ListId, int>,
                     next: Links)

  ghost predicate HasBucket(r: Raw, id: ListId) {
    id in r.head && id in r.tail && id in r.size && id in r.num
  }

  /** A bucket whose last link has not been cut yet. */
  ghost predicate OpenBucket(r: Raw, id: ListId, s: seq<PageRef>) {
    && HasBucket(r, id) && Linked(r.next, s)
    && r.head[id] == (if s == [] then null else s[0])
    && r.tail[id] == LastOf(s) && r.size[id] == Total(s) && r.num[id] == |s|
  }

  /** The (count, node) grid of one process. */
  datatype Grid = Grid(pid: int, maxCount: int, nodeNum: int)

  ghost predicate InGrid(g: Grid, c: int, n: int) {
    0 <= c <= g.maxCount && 0 <= n < g.nodeNum
  }

  /** The pages `done` have been distributed: a stable partition by count and node. */
  ghost predicate Distributed(r: Raw, g: Grid, done: seq<PageRef>, node: Placement) {
    forall c, n :: InGrid(g, c, n) ==> OpenBucket(r, Bucket(g.pid, c, n), Part(done, node, c, n))
  }

  /** `npf_add_pf`. */
  ghost function Added(r: Raw, id: ListId, p: PageRef): Raw
    requires HasBucket(r, id)
  {
    Raw(
      if r.head[id] == null then r.head[id := p] else r.head,
      r.tail[id := p],
      r.size[id := r.size[id] + p.size],
      r.num[id := r.num[id] + 1],
      if r.head[id] != null && r.tail[id] != null then r.next[r.tail[id] := p] else r.next)
  }

  ghost predicate GridId(g: Grid, id: ListId) {
    id.Bucket? && id.pid == g.pid && InGrid(g, id.count, id.node)
  }

  /** Counting a process touches the fields of that process's buckets only. */
  ghost predicate OthersKept(r: Raw, r': Raw, g: Grid) {
    && r.head.Keys == r'.head.Keys && r.tail.Keys == r'.tail.Keys
    && r.size.Keys == r'.size.Keys && r.num.Keys == r'.num.Keys
    && (forall id :: id in r.head && !GridId(g, id) ==> r'.head[id] == r.head[id])
    && (forall id :: id in r.tail && !GridId(g, id) ==> r'.tail[id] == r.tail[id])
    && (forall id :: id in r.size && !GridId(g, id) ==> r'.size[id] == r.size[id])
    && (forall id :: id in r.num && !GridId(g, id) ==> r'.num[id] == r.num[id])
  }

  lemma OthersKeptTrans(a: Raw, b: Raw, c: Raw, g: Grid)
    requires OthersKept(a, b, g) && OthersKept(b, c, g)
    ensures OthersKept(a, c, g)
  {
  }

  lemma AddedKeepsOthers(r: Raw, g: Grid, id: ListId, p: PageRef)
    requires HasBucket(r, id) && GridId(g, id)
    ensures OthersKept(r, Added(r, id, p), g)
  {
  }

  lemma AddedOpen(r: Raw, id: ListId, s: seq<PageRef>, p: PageRef)
    requires OpenBucket(r, id, s) && NoRepeat(s + [p])
    ensures OpenBucket(Added(r, id, p), id, s + [p])
  {
    TotalAppend(s, [p]);
    var t := s + [p];
    var nx := Added(r, id, p).next;
    forall i | 0 <= i < |t| - 1
      ensures t[i] in nx && nx[t[i]] == t[i + 1]
    {
      if i < |s| - 1 {
        assert t[i] == s[i] && t[|s| - 1] == s[|s| - 1];
      }
    }
  }

  lemma OtherOpen(r: Raw, id: ListId, p: PageRef, other: ListId, s: seq<PageRef>)
    requires HasBucket(r, id) && OpenBucket(r, other, s) && other != id
    requires r.tail[id] != null ==> r.tail[id] !in s
    ensures OpenBucket(Added(r, id, p), other, s)
  {
  }

  /** Adding the next scanned page to its bucket keeps the partition. */
  lemma AddNext(r: Raw, g: Grid, done: seq<PageRef>, node: Placement, p: PageRef)
    requires Distributed(r, g, done, node) && NoRepeat(done + [p])
    requires p in node && InGrid(g, p.count, node[p])
    ensures HasBucket(r, Bucket(g.pid, p.count, node[p]))
    ensures Distributed(Added(r, Bucket(g.pid, p.count, node[p]), p), g, done + [p], node)
    ensures var t := r.tail[Bucket(g.pid, p.count, node[p])]; t != null ==> t in done
  {
    var id := Bucket(g.pid, p.count, node[p]);
    var mine := Part(done, node, p.count, node[p]);
    assert OpenBucket(r, id, mine);
    if mine != [] {
      PartMembers(done, node, p.count, node[p], LastOf(mine));
    }
    var more := done + [p];
    assert more[..|more| - 1] == done && more[|more| - 1] == p;
    forall c, n | InGrid(g, c, n)
      ensures OpenBucket(Added(r, id, p), Bucket(g.pid, c, n), Part(more, node, c, n))
    {
      var s := Part(done, node, c, n);
      assert OpenBucket(r, Bucket(g.pid, c, n), s);
      if c == p.count && n == node[p] {
        PartNoRepeat(more, node, c, n);
        AddedOpen(r, id, s, p);
      } else {
        assert Part(more, node, c, n) == s;
        if mine != [] {
          PartMembers(done, node, c, n, LastOf(mine));
        }
        OtherOpen(r, id, p, Bucket(g.pid, c, n), s);
      }
    }
  }

  // ----- joining the per-VMA lists

  ghost function Joined(vmas: seq<seq<PageRef>>, cur: nat): seq<PageRef>
    requires cur <= |vmas|
  {
    if cur == 0 then [] else Joined(vmas, cur - 1) + vmas[cur - 1]
  }

  lemma {:induction false} JoinedPrefix(vmas: seq<seq<PageRef>>, cur: nat, upTo: nat)
    requires cur <= upTo <= |vmas|
    ensures |Joined(vmas, cur)| <= |Joined(vmas, upTo)|
    ensures Joined(vmas, upTo)[..|Joined(vmas, cur)|] == Joined(vmas, cur)
  {
    if cur < upTo {
      JoinedPrefix(vmas, cur, upTo - 1);
    }
  }

  lemma {:induction false} JoinedSkips(vmas: seq<seq<PageRef>>, cur: nat, upTo: nat)
    requires cur <= upTo <= |vmas| && forall v :: cur <= v < upTo ==> vmas[v] == []
    ensures Joined(vmas, upTo) == Joined(vmas, cur)
  {
    if cur < upTo {
      JoinedSkips(vmas, cur, upTo - 1);
    }
  }

  /** From the first undistributed page on, the pages of the VMAs joined so far form one chain. */
  ghost predicate Joining(nx: Links, sc: seq<PageRef>, k: int, m: int) {
    && 0 <= k <= m <= |sc|
    && Linked(nx, sc[k..m])
    && (k < m ==> sc[m - 1] in nx && nx[sc[m - 1]] == null)
  }

  lemma WaitingHeads(nx: Links, heads: seq<PageRef?>, vmas: seq<seq<PageRef>>, cur: int)
    requires Waiting(nx, heads, vmas, cur)
    ensures |heads| == |vmas|
  {
  }

  lemma NothingJoining(nx: Links, sc: seq<PageRef>)
    ensures Joining(nx, sc, 0, 0)
  {
  }

  lemma NoneJoined(vmas: seq<seq<PageRef>>)
    ensures Joined(vmas, 0) == []
  {
  }

  lemma FirstJoining(nx: Links, head: PageRef?, s: seq<PageRef>, sc: seq<PageRef>)
    requires Chain(nx, head, s) && s != [] && |s| <= |sc| && sc[..|s|] == s
    ensures Joining(nx, sc, 0, |s|) && sc[0] == s[0]
  {
    assert sc[0..|s|] == s;
    assert sc[|s| - 1] == s[|s| - 1] && sc[0] == sc[..|s|][0];
  }

  /** The VMAs not taken yet are still chains of their own. */
  ghost predicate Waiting(nx: Links, heads: seq<PageRef?>, vmas: seq<seq<PageRef>>, cur: int) {
    && |heads| == |vmas| && 0 <= cur
    && forall v :: cur <= v < |vmas| ==> Chain(nx, heads[v], vmas[v])
  }

  lemma JoiningAt(nx: Links, sc: seq<PageRef>, k: int, m: int, i: int)
    requires Joining(nx, sc, k, m) && k <= i < m
    ensures sc[i] in nx && nx[sc[i]] == if i < m - 1 then sc[i + 1] else null
  {
    var s := sc[k..m];
    assert s[i - k] == sc[i];
    if i < m - 1 {
      assert s[i - k + 1] == sc[i + 1];
    }
  }

  /** Linking the last joined page to the first page of the next VMA. */
  lemma JoinNext(nx: Links, sc: seq<PageRef>, k: int, m: int, s: seq<PageRef>)
    requires Joining(nx, sc, k, m) && k < m && NoRepeat(sc)
    requires s != [] && m + |s| <= |sc| && sc[m..m + |s|] == s && Chain(nx, s[0], s)
    ensures Joining(nx[sc[m - 1] := s[0]], sc, k, m + |s|)
  {
    var nx' := nx[sc[m - 1] := s[0]];
    var all := sc[k..m + |s|];
    forall t | 0 <= t < |all| - 1
      ensures all[t] in nx' && nx'[all[t]] == all[t + 1]
    {
      assert all[t] == sc[k + t] && all[t + 1] == sc[k + t + 1];
      if k + t < m - 1 {
        JoiningAt(nx, sc, k, m, k + t);
      } else if k + t >= m {
        assert sc[k + t] == s[k + t - m] && sc[k + t + 1] == s[k + t - m + 1];
      } else {
        assert sc[m] == s[0];
      }
    }
    assert sc[m + |s| - 1] == s[|s| - 1];
  }

  lemma JoiningFrame(nx: Links, nx': Links, sc: seq<PageRef>, k: int, i: int, m: int)
    requires Joining(nx, sc, k, m) && k <= i < m && nx.Keys == nx'.Keys
    requires forall t :: i <= t < m ==> sc[t] in nx && nx'[sc[t]] == nx[sc[t]]
    ensures Joining(nx', sc, i + 1, m)
  {
    var s := sc[i + 1..m];
    forall t | 0 <= t < |s| - 1
      ensures s[t] in nx' && nx'[s[t]] == s[t + 1]
    {
      assert s[t] == sc[i + 1 + t] && s[t + 1] == sc[i + 2 + t];
      JoiningAt(nx, sc, k, m, i + 1 + t);
    }
    if i + 1 < m {
      JoiningAt(nx, sc, k, m, m - 1);
    }
  }

  /** The pages of a VMA not taken yet come after all joined pages. */
  lemma WaitingPages(vmas: seq<seq<PageRef>>, sc: seq<PageRef>, cur: nat, v: nat)
    requires cur <= v < |vmas| && sc == Joined(vmas, |vmas|)
    ensures |Joined(vmas, cur)| + |vmas[v]| <= |Joined(vmas, v + 1)| <= |sc|
    ensures var at := |Joined(vmas, v)|; |Joined(vmas, cur)| <= at && sc[at..at + |vmas[v]|] == vmas[v]
  {
    JoinedPrefix(vmas, cur, v);
    JoinedPrefix(vmas, v + 1, |vmas|);
    var j := Joined(vmas, v + 1);
    assert j == Joined(vmas, v) + vmas[v];
    assert sc[..|j|] == j;
    assert sc[|Joined(vmas, v)|..|j|] == j[|Joined(vmas, v)|..];
  }

  lemma WaitingShift(nx: Links, heads: seq<PageRef?>, heads': seq<PageRef?>, vmas: seq<seq<PageRef>>, cur: nat, next: nat)
    requires Waiting(nx, heads, vmas, cur) && cur <= next <= |vmas| == |heads'|
    requires forall v :: next <= v < |vmas| ==> heads'[v] == heads[v]
    ensures Waiting(nx, heads', vmas, next)
  {
    hide Chain;
  }

  lemma WaitingChain(nx: Links, heads: seq<PageRef?>, vmas: seq<seq<PageRef>>, cur: nat, v: nat)
    requires Waiting(nx, heads, vmas, cur) && cur <= v < |vmas|
    ensures Chain(nx, heads[v], vmas[v]) && (vmas[v] != [] ==> heads[v] == vmas[v][0])
  {
  }

  lemma JoiningBounds(nx: Links, sc: seq<PageRef>, k: int, m: int)
    requires Joining(nx, sc, k, m)
    ensures 0 <= k <= m <= |sc|
  {
  }

  lemma WaitingFrame(nx: Links, nx': Links, heads: seq<PageRef?>, vmas: seq<seq<PageRef>>, sc: seq<PageRef>, cur: nat, upTo: int)
    requires Waiting(nx, heads, vmas, cur) && sc == Joined(vmas, |vmas|) && NoRepeat(sc) && cur <= |vmas|
    requires 0 <= upTo <= |Joined(vmas, cur)| <= |sc|
    requires nx.Keys == nx'.Keys && forall p :: p in nx && p !in sc[..upTo] ==> nx'[p] == nx[p]
    ensures Waiting(nx', heads, vmas, cur)
  {
    forall v | cur <= v < |vmas|
      ensures Chain(nx', heads[v], vmas[v])
    {
      WaitingPages(vmas, sc, cur, v);
      var at := |Joined(vmas, v)|;
      assert Chain(nx, heads[v], vmas[v]);
      forall t | 0 <= t < |vmas[v]|
        ensures vmas[v][t] !in sc[..upTo]
      {
        assert sc[at..at + |vmas[v]|][t] == sc[at + t];
      }
    }
  }

  class Counter {
    const store: PageStore
    const grid: Grid
    const node: Placement
    ghost const scan: set<PageRef>

    constructor (store: PageStore, grid: Grid, node: Placement, ghost scan: set<PageRef>)
      ensures this.store == store && this.grid == grid && this.node == node && this.scan == scan
    {
      this.store, this.grid, this.node, this.scan := store, grid, node, scan;
    }

    ghost function Now(): Raw
      reads store, scan
    {
      Raw(store.head, store.tail, store.size, store.num, NextOf(scan))
    }

    /** `npf_add_pf`: append a page to a bucket; the page's own link is left as it is. */
    method NpfAdd(id: ListId, p: PageRef)
      requires HasBucket(Now(), id) && p in scan
      requires store.tail[id] != null ==> store.tail[id] in scan
      requires store.head[id] == null <==> store.tail[id] == null
      modifies store`head, store`tail, store`size, store`num, if store.tail[id] == null then {} else {store.tail[id]}
      ensures Now() == Added(old(Now()), id, p)
    {
      ghost var before := NextOf(scan);
      if store.head[id] == null {
        store.head := store.head[id := p];
        store.tail := store.tail[id := p];
      } else {
        store.tail[id].next := p;
        assert NextOf(scan) == before[store.tail[id] := p];
        store.tail := store.tail[id := p];
      }
      store.size := store.size[id := store.size[id] + p.size];
      store.num := store.num[id := store.num[id] + 1];
    }

    /** The pages `batch`, in scan order, may be added after `done`. */
    ghost predicate Addable(done: seq<PageRef>, batch: seq<PageRef>) {
      && NoRepeat(done + batch)
      && (forall p :: p in done + batch ==> p in scan)
      && (forall p :: p in batch ==> p in node && InGrid(grid, p.count, node[p]))
    }

    lemma AddableNext(done: seq<PageRef>, batch: seq<PageRef>, i: nat)
      requires Addable(done, batch) && i < |batch|
      ensures batch[i] in scan && batch[i] in node && InGrid(grid, batch[i].count, node[batch[i]])
      ensures NoRepeat(done + batch[..i] + [batch[i]]) && done + batch[..i] + [batch[i]] == done + batch[..i + 1]
      ensures forall p :: p in done + batch[..i] ==> p in scan
      ensures forall t :: i <= t < |batch| ==> batch[t] !in done + batch[..i]
    {
      var all := done + batch;
      assert all[|done| + i] == batch[i];
      assert batch[i] in batch;
      var s := done + batch[..i + 1];
      assert s == done + batch[..i] + [batch[i]];
      assert forall t :: 0 <= t < |s| ==> s[t] == all[t];
      forall t | i <= t < |batch|
        ensures batch[t] !in done + batch[..i]
      {
        assert all[|done| + t] == batch[t];
        assert forall u :: 0 <= u < |done| + i ==> (done + batch[..i])[u] == all[u];
      }
      forall p | p in done + batch[..i]
        ensures p in scan
      {
        assert p in all;
      }
    }

    /** `insert_count_pfs`: distribute one batch; only links of pages that already have a successor
        in their bucket change. */
    method InsertCountPfs(first: PageRef, status: seq<int>, ghost done: seq<PageRef>, ghost batch: seq<PageRef>)
      requires Addable(done, batch) && |status| == |batch| > 0 && first == batch[0]
      requires forall i :: 0 <= i < |batch| ==> batch[i] in node && status[i] == node[batch[i]]
      requires Linked(NextOf(scan), batch)
      requires Distributed(Now(), grid, done, node)
      modifies store`head, store`tail, store`size, store`num, scan
      ensures Distributed(Now(), grid, done + batch, node) && OthersKept(old(Now()), Now(), grid)
      ensures forall p :: p in scan && p !in done + batch[..|batch| - 1] ==> p.next == old(p.next)
    {
      hide Distributed;
      hide Addable;
      hide NoRepeat;
      hide OthersKept;
      hide Added;
      SelfKept(Now(), grid);
      var pf: PageRef? := first;
      var i := 0;
      ghost var kept := 0; // pages of the batch from this one on have their scan links
      assert done + batch[..0] == done;
      while i < |status|
        invariant 0 <= kept <= i <= |batch| && kept == (if i == 0 then 0 else i - 1)
        invariant i < |batch| ==> pf == batch[i]
        invariant Distributed(Now(), grid, done + batch[..i], node) && OthersKept(old(Now()), Now(), grid)
        invariant forall p :: p in scan && p !in done + batch[..kept] ==> p.next == old(p.next)
      {
        AddableNext(done, batch, i);
        ghost var seen := done + batch[..i];
        AddNext(Now(), grid, seen, node, batch[i]);
        KeptLink(done, batch, i, kept);
        var next := pf.next;
        var id := Bucket(grid.pid, pf.count, status[i]);
        EndsMatch(Now(), grid, seen, node, pf.count, status[i]);
        ghost var r := Now();
        NpfAdd(id, pf);
        AddedKeepsOthers(r, grid, id, batch[i]);
        OthersKeptTrans(old(Now()), r, Now(), grid);
        pf := next;
        kept := i;
        i := i + 1;
      }
      assert batch[..i] == batch;
    }

    lemma KeptLink(done: seq<PageRef>, batch: seq<PageRef>, i: nat, kept: nat)
      requires Addable(done, batch) && kept <= i < |batch|
      ensures batch[i] !in done + batch[..kept]
      ensures forall p :: p in done + batch[..kept] ==> p in done + batch[..i]
    {
      AddableNext(done, batch, i);
      assert forall u :: 0 <= u < |done| + kept ==> (done + batch[..kept])[u] == (done + batch[..i])[u];
    }

    /** What is fixed about the scan: every page once, and a valid place reported for each. */
    ghost predicate Scanned(vmas: seq<seq<PageRef>>, sc: seq<PageRef>) {
      && sc == Joined(vmas, |vmas|) && NoRepeat(sc)
      && (forall p :: p in sc ==> p in scan) && (forall p :: p in scan ==> p in sc)
      && (forall p :: p in sc ==> p in node && InGrid(grid, p.count, node[p]))
    }

    /** Pages before `k` are distributed, pages before `i` visited, VMAs before `cur` joined. */
    ghost predicate Walk(r: Raw, heads: seq<PageRef?>, vmas: seq<seq<PageRef>>, sc: seq<PageRef>, cur: int, k: int, i: int) {
      && 0 <= cur <= |vmas|
      && var m := |Joined(vmas, cur)|;
      && k <= i <= m && (i == m ==> m == |sc| && k == i)
      && Joining(r.next, sc, k, m) && Waiting(r.next, heads, vmas, cur)
      && Distributed(r, grid, sc[..k], node)
    }

    /** `next_vma_pf`: take the next VMA that has pages. */
    method NextVmaPf(vmaPf: array<PageRef?>, cur: nat, ghost vmas: seq<seq<PageRef>>) returns (pf: PageRef?, next: nat)
      requires cur <= vmaPf.Length == |vmas| && Waiting(NextOf(scan), vmaPf[..], vmas, cur)
      modifies vmaPf
      ensures cur <= next <= |vmas|
      ensures forall v :: next <= v < |vmas| ==> vmaPf[v] == old(vmaPf[v])
      ensures forall v :: cur <= v < next ==> vmaPf[v] == null
      ensures forall v :: 0 <= v < cur ==> vmaPf[v] == old(vmaPf[v])
      ensures pf == null ==> next == |vmas| && Joined(vmas, next) == Joined(vmas, cur)
      ensures pf != null ==>
        && cur < next && vmas[next - 1] != [] && pf == vmas[next - 1][0]
        && Joined(vmas, next) == Joined(vmas, cur) + vmas[next - 1]
    {
      hide Joined;
      pf, next := null, cur;
      ghost var empty := cur;
      while next < vmaPf.Length
        invariant cur <= next <= |vmas| && pf == null
        invariant forall v :: next <= v < |vmas| ==> vmaPf[v] == old(vmaPf[v])
        invariant forall v :: cur <= v < next ==> vmas[v] == [] && vmaPf[v] == null
        invariant forall v :: 0 <= v < cur ==> vmaPf[v] == old(vmaPf[v])
      {
        pf := vmaPf[next];
        assert Chain(NextOf(scan), old(vmaPf[..])[next], vmas[next]);
        vmaPf[next] := null;
        next := next + 1;
        if pf != null {
          JoinedSkips(vmas, cur, next - 1);
          JoinedStep(vmas, next);
          return;
        }
      }
      JoinedSkips(vmas, cur, next);
    }

    /** The page before the end of the joined VMAs is reached: take the next VMA and link to it. */
    lemma WalkJoin(r: Raw, heads: seq<PageRef?>, heads': seq<PageRef?>, vmas: seq<seq<PageRef>>, sc: seq<PageRef>,
                   cur: nat, next: nat, k: int, i: int, pf: PageRef?)
      requires Scanned(vmas, sc) && Walk(r, heads, vmas, sc, cur, k, i) && 0 <= k
      requires i < |sc| && sc[i] in r.next && r.next[sc[i]] == null && i < |Joined(vmas, cur)|
      requires cur <= next <= |vmas| == |heads'| && forall v :: next <= v < |vmas| ==> heads'[v] == heads[v]
      requires pf == null ==> next == |vmas| && Joined(vmas, next) == Joined(vmas, cur)
      requires pf != null ==>
        && cur < next && vmas[next - 1] != [] && pf == vmas[next - 1][0]
        && Joined(vmas, next) == Joined(vmas, cur) + vmas[next - 1]
      ensures Walk(r.(next := r.next[sc[i] := pf]), heads', vmas, sc, next, k, i)
      ensures i < |Joined(vmas, next)| && (pf == null <==> i == |sc| - 1) && (pf != null ==> sc[i + 1] == pf)
    {
      hide Distributed;
      hide Joined;
      hide Waiting;
      hide Joining;
      hide Chain;
      var m := |Joined(vmas, cur)|;
      JoiningBounds(r.next, sc, k, m);
      if i < m - 1 {
        JoiningAt(r.next, sc, k, m, i);
      }
      assert i == m - 1;
      var nx' := r.next[sc[i] := pf];
      assert sc[i] !in sc[..k];
      DistributedFrame(r, nx', grid, sc[..k], node);
      JoinedPrefix(vmas, cur, |vmas|);
      JoinedPrefix(vmas, next, |vmas|);
      WaitingShift(r.next, heads, heads', vmas, cur, next);
      WaitingFrame(r.next, nx', heads', vmas, sc, next, i + 1);
      if pf != null {
        var s := vmas[next - 1];
        WaitingPages(vmas, sc, cur, next - 1);
        JoinedStep(vmas, next);
        assert |Joined(vmas, next - 1)| == m;
        WaitingChain(r.next, heads, vmas, cur, next - 1);
        JoinNext(r.next, sc, k, m, s);
        assert sc[m] == sc[m..m + |s|][0];
      } else {
        assert nx' == r.next;
      }
    }

    /** A batch that ends with page `i` has been distributed. */
    lemma WalkFlush(r: Raw, r': Raw, heads: seq<PageRef?>, vmas: seq<seq<PageRef>>, sc: seq<PageRef>, cur: nat, k: int, i: int)
      requires Scanned(vmas, sc) && Walk(r, heads, vmas, sc, cur, k, i) && 0 <= k && cur <= |vmas|
      requires i < |Joined(vmas, cur)| <= |sc| && (i == |Joined(vmas, cur)| - 1 ==> i == |sc| - 1)
      requires r.next.Keys == r'.next.Keys && forall p :: p in r.next && p !in sc[..i] ==> r'.next[p] == r.next[p]
      requires Distributed(r', grid, sc[..i + 1], node)
      ensures Walk(r', heads, vmas, sc, cur, i + 1, i + 1)
      ensures sc[i] in r'.next && r'.next[sc[i]] == if i < |sc| - 1 then sc[i + 1] else null
    {
      hide Distributed;
      hide Joined;
      var m := |Joined(vmas, cur)|;
      JoiningAt(r.next, sc, k, m, i);
      forall t | i <= t < m
        ensures sc[t] in r.next && sc[t] !in sc[..i]
      {
        JoiningAt(r.next, sc, k, m, t);
      }
      JoiningFrame(r.next, r'.next, sc, k, i, m);
      WaitingFrame(r.next, r'.next, heads, vmas, sc, cur, i);
    }

    /** Facts about page `i` of a walk that `CountPages` needs to follow the links. */
    lemma WalkAt(r: Raw, heads: seq<PageRef?>, vmas: seq<seq<PageRef>>, sc: seq<PageRef>, cur: nat, k: int, i: int)
      requires Scanned(vmas, sc) && Walk(r, heads, vmas, sc, cur, k, i) && i < |sc|
      ensures 0 <= k <= i < |Joined(vmas, cur)| <= |sc| && cur <= |vmas| && Waiting(r.next, heads, vmas, cur)
      ensures sc[i] in scan && sc[i] in node && sc[i] in r.next
      ensures r.next[sc[i]] == if i < |Joined(vmas, cur)| - 1 then sc[i + 1] else null
    {
      JoiningAt(r.next, sc, k, |Joined(vmas, cur)|, i);
      assert sc[i] in sc;
    }

    /** The batch from `k` to `i` can be handed to `InsertCountPfs`. */
    lemma WalkBatch(r: Raw, heads: seq<PageRef?>, vmas: seq<seq<PageRef>>, sc: seq<PageRef>, cur: nat, k: int, i: int)
      requires Scanned(vmas, sc) && Walk(r, heads, vmas, sc, cur, k, i) && i < |sc|
      ensures 0 <= k <= i && Addable(sc[..k], sc[k..i + 1]) && Linked(r.next, sc[k..i + 1])
      ensures Distributed(r, grid, sc[..k], node)
      ensures sc[..k] + sc[k..i + 1] == sc[..i + 1] && sc[..k] + sc[k..i + 1][..i - k] == sc[..i]
      ensures forall p :: p in sc[k..i + 1] ==> p in node
    {
      hide Distributed;
      hide Joined;
      WalkAt(r, heads, vmas, sc, cur, k, i);
      var m := |Joined(vmas, cur)|;
      var b := sc[k..i + 1];
      var all := sc[..k] + b;
      assert all == sc[..i + 1];
      forall t | 0 <= t < |b| - 1
        ensures b[t] in r.next && r.next[b[t]] == b[t + 1]
      {
        JoiningAt(r.next, sc, k, m, k + t);
        assert b[t] == sc[k + t] && b[t + 1] == sc[k + t + 1];
      }
      forall p | p in all
        ensures p in sc
      {
      }
    }

    lemma WalkStart(r: Raw, heads: seq<PageRef?>, heads': seq<PageRef?>, vmas: seq<seq<PageRef>>, sc: seq<PageRef>, next: nat, pf: PageRef?)
      requires Scanned(vmas, sc) && Waiting(r.next, heads, vmas, 0) && Distributed(r, grid, [], node)
      requires next <= |vmas| == |heads'| && forall v :: next <= v < |vmas| ==> heads'[v] == heads[v]
      requires pf == null ==> next == |vmas| && Joined(vmas, next) == Joined(vmas, 0)
      requires pf != null ==>
        && 0 < next && vmas[next - 1] != [] && pf == vmas[next - 1][0]
        && Joined(vmas, next) == Joined(vmas, 0) + vmas[next - 1]
      ensures Walk(r, heads', vmas, sc, next, 0, 0)
      ensures pf == (if sc == [] then null else sc[0])
      ensures sc == [] ==> next == |vmas|
    {
      hide Distributed;
      hide Waiting;
      hide NoRepeat;
      hide Joined;
      hide Joining;
      hide Chain;
      assert sc[..0] == [];
      WaitingShift(r.next, heads, heads', vmas, 0, next);
      JoinedPrefix(vmas, next, |vmas|);
      NoneJoined(vmas);
      WaitingHeads(r.next, heads, vmas, 0);
      if pf == null {
        NothingJoining(r.next, sc);
      } else {
        var s := vmas[next - 1];
        assert Joined(vmas, next) == s;
        WaitingChain(r.next, heads, vmas, 0, next - 1);
        FirstJoining(r.next, heads[next - 1], s, sc);
      }
    }

    lemma WalkAdvance(r: Raw, heads: seq<PageRef?>, vmas: seq<seq<PageRef>>, sc: seq<PageRef>, cur: nat, k: int, i: int)
      requires Scanned(vmas, sc) && Walk(r, heads, vmas, sc, cur, k, i) && cur <= |vmas| && i + 1 < |Joined(vmas, cur)|
      ensures Walk(r, heads, vmas, sc, cur, k, i + 1)
    {
      hide Distributed;
    }

    /** At the end of a VMA's list, go on with the next VMA that has pages. */
    method LinkNextVma(vmaPf: array<PageRef?>, cur: nat, p: PageRef, ghost vmas: seq<seq<PageRef>>, ghost sc: seq<PageRef>,
                       ghost k: nat, ghost i: nat)
      returns (next: nat)
      requires Scanned(vmas, sc) && vmaPf.Length == |vmas| && i < |sc| && p == sc[i]
      requires Walk(Now(), vmaPf[..], vmas, sc, cur, k, i)
      requires forall v :: 0 <= v < cur && v < |vmas| ==> vmaPf[v] == null
      modifies vmaPf, p
      ensures next <= |vmas| && Walk(Now(), vmaPf[..], vmas, sc, next, k, i)
      ensures Now() == old(Now()).(next := Now().next)
      ensures i < |Joined(vmas, next)| <= |sc| && (i == |Joined(vmas, next)| - 1 ==> i == |sc| - 1)
      ensures p.next == (if i < |sc| - 1 then sc[i + 1] else null)
      ensures i == |sc| - 1 ==> next == |vmas|
      ensures forall v :: 0 <= v < next ==> vmaPf[v] == null
    {
      hide Scanned;
      hide Walk;
      hide Waiting;
      hide Joined;
      ghost var r, heads := Now(), vmaPf[..];
      WalkAt(r, heads, vmas, sc, cur, k, i);
      if p.next != null {
        return cur;
      }
      var pf: PageRef?;
      pf, next := NextVmaPf(vmaPf, cur, vmas);
      WalkJoin(r, heads, vmaPf[..], vmas, sc, cur, next, k, i, pf);
      p.next := pf;
      assert NextOf(scan) == r.next[sc[i] := pf];
      WalkAt(Now(), vmaPf[..], vmas, sc, next, k, i);
    }

    /** Ask the kernel where the pages of the batch are, and distribute them. */
    method Flush(first: PageRef, batch: seq<PageRef>, ghost heads: seq<PageRef?>, ghost vmas: seq<seq<PageRef>>,
                 ghost sc: seq<PageRef>, ghost cur: nat, ghost k: nat, ghost i: nat)
      requires Scanned(vmas, sc) && k <= i < |sc| && batch == sc[k..i + 1] && first == sc[k] && cur <= |vmas|
      requires Walk(Now(), heads, vmas, sc, cur, k, i)
      requires i < |Joined(vmas, cur)| <= |sc| && (i == |Joined(vmas, cur)| - 1 ==> i == |sc| - 1)
      modifies store`head, store`tail, store`size, store`num, scan
      ensures Walk(Now(), heads, vmas, sc, cur, i + 1, i + 1) && OthersKept(old(Now()), Now(), grid)
      ensures sc[i].next == if i < |sc| - 1 then sc[i + 1] else null
    {
      hide Scanned;
      hide Walk;
      hide Joined;
      hide Distributed;
      hide Addable;
      hide Linked;
      hide OthersKept;
      ghost var r := Now();
      WalkBatch(r, heads, vmas, sc, cur, k, i);
      WalkAt(r, heads, vmas, sc, cur, k, i);
      assert forall t :: 0 <= t < |batch| ==> batch[t] in batch;
      var status := seq(|batch|, t requires 0 <= t < |batch| && batch[t] in node => node[batch[t]]);
      InsertCountPfs(first, status, sc[..k], batch);
      WalkFlush(r, Now(), heads, vmas, sc, cur, k, i);
    }

    /** `cslide_count_node_pfs` up to the cutting of the bucket tails. */
    method CountPages(vmaPf: array<PageRef?>, batchSize: nat, ghost vmas: seq<seq<PageRef>>, ghost sc: seq<PageRef>)
      requires Scanned(vmas, sc) && vmaPf.Length == |vmas| && 0 < batchSize
      requires Waiting(NextOf(scan), vmaPf[..], vmas, 0) && Distributed(Now(), grid, [], node)
      modifies store`head, store`tail, store`size, store`num, scan, vmaPf
      ensures Distributed(Now(), grid, sc, node) && OthersKept(old(Now()), Now(), grid)
      ensures forall v :: 0 <= v < vmaPf.Length ==> vmaPf[v] == null
    {
      hide Distributed;
      hide Scanned;
      hide Walk;
      hide Waiting;
      hide Joined;
      hide OthersKept;
      SelfKept(Now(), grid);
      var pageRefs, cur := NextVmaPf(vmaPf, 0, vmas);
      assert Now() == old(Now());
      WalkStart(Now(), old(vmaPf[..]), vmaPf[..], vmas, sc, cur, pageRefs);
      var last := pageRefs;
      var batch: seq<PageRef> := [];
      ghost var k: nat, i: nat := 0, 0;
      while pageRefs != null
        invariant k <= i <= |sc| && 0 <= cur <= |vmas| == vmaPf.Length
        invariant Walk(Now(), vmaPf[..], vmas, sc, cur, k, i) && OthersKept(old(Now()), Now(), grid)
        invariant pageRefs == (if i < |sc| then sc[i] else null) && last == (if k < |sc| then sc[k] else null)
        invariant batch == sc[k..i]
        invariant i == |sc| ==> k == i && cur == |vmas|
        invariant forall v :: 0 <= v < cur ==> vmaPf[v] == null
        decreases |sc| - i
      {
        WalkAt(Now(), vmaPf[..], vmas, sc, cur, k, i);
        batch := batch + [pageRefs];
        ghost var r := Now();
        cur := LinkNextVma(vmaPf, cur, pageRefs, vmas, sc, k, i);
        RelinkKeepsOthers(old(Now()), r, Now(), grid);
        r := Now();
        if |batch| == batchSize || pageRefs.next == null {
          Flush(last, batch, vmaPf[..], vmas, sc, cur, k, i);
          OthersKeptTrans(old(Now()), r, Now(), grid);
          last := pageRefs.next;
          batch := [];
          k := i + 1;
        } else {
          WalkAdvance(Now(), vmaPf[..], vmas, sc, cur, k, i);
        }
        pageRefs := pageRefs.next;
        i := i + 1;
      }
      WalkEnd(Now(), vmaPf[..], vmas, sc, cur, k, i);
    }

    lemma WalkEnd(r: Raw, heads: seq<PageRef?>, vmas: seq<seq<PageRef>>, sc: seq<PageRef>, cur: nat, k: int, i: int)
      requires Walk(r, heads, vmas, sc, cur, k, i) && k == |sc|
      ensures Distributed(r, grid, sc, node)
    {
      assert sc[..k] == sc;
    }

    /** `setup_count_pfs_tail`: cut every bucket after its last page. */
    method SetupTails(ghost sc: seq<PageRef>)
      requires Distributed(Now(), grid, sc, node) && NoRepeat(sc) && forall p :: p in sc ==> p in scan
      modifies scan
      ensures Distributed(Now(), grid, sc, node) && AllClosed(Now().next, grid, sc, node)
    {
      hide Distributed;
      hide OpenBucket;
      hide NoRepeat;
      hide Part;
      var c := 0;
      while c <= grid.maxCount
        invariant 0 <= c
        invariant Distributed(Now(), grid, sc, node)
        invariant ClosedUpTo(Now().next, grid, sc, node, c, 0)
        decreases grid.maxCount + 1 - c
      {
        var n := 0;
        while n < grid.nodeNum
          invariant 0 <= n
          invariant Distributed(Now(), grid, sc, node)
          invariant ClosedUpTo(Now().next, grid, sc, node, c, n)
        {
          var id := Bucket(grid.pid, c, n);
          EndsMatch(Now(), grid, sc, node, c, n);
          CutTail(Now(), grid, sc, node, c, n);
          if store.tail[id] != null {
            ghost var nx := NextOf(scan);
            store.tail[id].next := null;
            assert NextOf(scan) == nx[store.tail[id] := null];
          }
          n := n + 1;
        }
        RowClosed(Now().next, grid, sc, node, c, n);
        c := c + 1;
      }
      GridClosed(Now().next, grid, sc, node, c);
    }

    /** Relinking the scan into buckets, and cutting the buckets. */
    method Distribute(vmaPf: array<PageRef?>, ghost vmas: seq<seq<PageRef>>, ghost sc: seq<PageRef>)
      requires Scanned(vmas, sc) && vmaPf.Length == |vmas| && Waiting(NextOf(scan), vmaPf[..], vmas, 0)
      requires Distributed(Now(), grid, [], node)
      modifies store`head, store`tail, store`size, store`num, scan, vmaPf
      ensures Distributed(Now(), grid, sc, node) && AllClosed(Now().next, grid, sc, node)
      ensures OthersKept(old(Now()), Now(), grid)
      ensures forall v :: 0 <= v < vmaPf.Length ==> vmaPf[v] == null
    {
      hide Distributed;
      hide Scanned;
      hide OthersKept;
      hide Waiting;
      hide AllClosed;
      hide NoRepeat;
      ScannedPages(vmas, sc);
      CountPages(vmaPf, BATCH_SIZE, vmas, sc);
      ghost var r := Now();
      SetupTails(sc);
      RelinkKeepsOthers(old(Now()), r, Now(), grid);
    }

    /** `cslide_count_node_pfs`: afterwards the bucket (c, n) of the process is a list of exactly its
        scanned pages with count c on node n, in scan order, and no page is left in a VMA's list. */
    method CountNodePfs(vmaPf: array<PageRef?>, ghost vmas: seq<seq<PageRef>>, ghost sc: seq<PageRef>)
      requires store.Valid() && store.Numbered() && EmptyGrid(store.lists, grid) && store.pages !! scan
      requires Scanned(vmas, sc) && vmaPf.Length == |vmas| && Waiting(NextOf(scan), vmaPf[..], vmas, 0)
      modifies store, scan, vmaPf
      ensures store.Valid() && store.Numbered()
      ensures store.lists == Counted(old(store.lists), grid, sc, node)
      ensures store.pages == old(store.pages) + scan
      ensures forall v :: 0 <= v < vmaPf.Length ==> vmaPf[v] == null
    {
      hide Good;
      hide Distributed;
      hide Scanned;
      hide OthersKept;
      hide Waiting;
      hide AllClosed;
      hide EmptyGrid;
      hide Counted;
      hide NoRepeat;
      ghost var s0, r0 := store.Now(), Now();
      NothingDistributed(s0, r0, grid, node);
      ScannedPages(vmas, sc);
      Distribute(vmaPf, vmas, sc);
      ghost var r := Now();
      assert NextOf(store.pages) == s0.next;
      Publish(s0, r0, sc);
    }

    /** The counted buckets join the store's lists. */
    ghost method Publish(s0: Snapshot, r0: Raw, sc: seq<PageRef>)
      requires Good(s0) && EmptyGrid(s0.lists, grid) && store.pages !! scan
      requires store.lists == s0.lists && store.owner == s0.owner && NextOf(store.pages) == s0.next
      requires r0.head == s0.head && r0.tail == s0.tail && r0.size == s0.size
      requires forall id :: id in s0.lists && id.Bucket? ==> id in r0.num && r0.num[id] == |s0.lists[id]|
      requires OthersKept(r0, Now(), grid) && Distributed(Now(), grid, sc, node) && AllClosed(Now().next, grid, sc, node)
      requires NoRepeat(sc) && (forall p :: p in sc ==> p in scan) && (forall p :: p in scan ==> p in sc)
      requires forall p :: p in sc ==> p in node && InGrid(grid, p.count, node[p])
      modifies store`owner, store`lists, store`pages
      ensures store.Valid() && store.Numbered()
      ensures store.lists == Counted(s0.lists, grid, sc, node) && store.pages == old(store.pages) + scan
    {
      hide Good;
      hide Distributed;
      hide OthersKept;
      hide AllClosed;
      hide EmptyGrid;
      hide Counted;
      hide Owners;
      hide NoRepeat;
      ghost var r := Now();
      assert s0.next.Keys == store.pages && r.next.Keys == scan;
      CountedGood(s0, r0, r, grid, sc, node);
      CountedNumbered(s0, r0, r, grid, sc, node);
      store.owner := store.owner + Owners(grid, sc, node);
      store.lists := Counted(store.lists, grid, sc, node);
      store.pages := store.pages + scan;
      assert NextOf(store.pages) == s0.next + r.next;
    }

    lemma ScannedPages(vmas: seq<seq<PageRef>>, sc: seq<PageRef>)
      requires Scanned(vmas, sc)
      ensures NoRepeat(sc) && (forall p :: p in sc ==> p in scan) && (forall p :: p in scan ==> p in sc)
      ensures forall p :: p in sc ==> p in node && InGrid(grid, p.count, node[p])
    {
    }
  }

  const BATCH_SIZE := 0x1_0000

  ghost predicate EmptyGrid(ls: Lists, g: Grid) {
    forall c, n :: InGrid(g, c, n) ==> Bucket(g.pid, c, n) in ls && ls[Bucket(g.pid, c, n)] == []
  }

  ghost function Counted(ls: Lists, g: Grid, sc: seq<PageRef>, node: Placement): Lists {
    map id | id in ls :: if GridId(g, id) then Part(sc, node, id.count, id.node) else ls[id]
  }

  ghost function Owners(g: Grid, sc: seq<PageRef>, node: Placement): map<PageRef, ListId> {
    map p | p in sc :: Bucket(g.pid, p.count, if p in node then node[p] else 0)
  }

  lemma NothingDistributed(s: Snapshot, r: Raw, g: Grid, node: Placement)
    requires Good(s) && EmptyGrid(s.lists, g) && r.head == s.head && r.tail == s.tail && r.size == s.size
    requires forall id :: id in s.lists && id.Bucket? ==> id in r.num && r.num[id] == |s.lists[id]|
    ensures Distributed(r, g, [], node)
  {
    forall c, n | InGrid(g, c, n)
      ensures OpenBucket(r, Bucket(g.pid, c, n), Part([], node, c, n))
    {
      BucketFields(s, Bucket(g.pid, c, n));
    }
  }

  /** A distributed and closed grid, put back among the other lists, gives a good store again. */
  lemma CountedGood(s: Snapshot, r0: Raw, r: Raw, g: Grid, sc: seq<PageRef>, node: Placement)
    requires Good(s) && EmptyGrid(s.lists, g)
    requires r0.head == s.head && r0.tail == s.tail && r0.size == s.size
    requires OthersKept(r0, r, g) && Distributed(r, g, sc, node) && AllClosed(r.next, g, sc, node)
    requires NoRepeat(sc) && (forall p :: p in sc <==> p in r.next) && s.next.Keys !! r.next.Keys
    requires forall p :: p in sc ==> p in node && InGrid(g, p.count, node[p])
    ensures Good(Snapshot(r.head, r.tail, r.size, Counted(s.lists, g, sc, node),
                          s.owner + Owners(g, sc, node), s.next + r.next))
  {
    hide Distributed;
    hide OthersKept;
    hide AllClosed;
    hide NoRepeat;
    hide Owned;
    hide ChainsGood;
    hide BucketsGood;
    hide EmptyGrid;
    hide Counted;
    CountedOwned(s, g, sc, node);
    CountedChains(s, r0, r, g, sc, node);
    CountedBuckets(s, r0, r, g, sc, node);
    assert (s.owner + Owners(g, sc, node)).Keys == (s.next + r.next).Keys;
  }

  lemma CountedOwned(s: Snapshot, g: Grid, sc: seq<PageRef>, node: Placement)
    requires Owned(s.lists, s.owner) && EmptyGrid(s.lists, g) && NoRepeat(sc)
    requires forall p :: p in sc ==> p in node && InGrid(g, p.count, node[p]) && p !in s.owner
    ensures Owned(Counted(s.lists, g, sc, node), s.owner + Owners(g, sc, node))
  {
    var ls, ow := Counted(s.lists, g, sc, node), s.owner + Owners(g, sc, node);
    forall id | id in ls
      ensures NoRepeat(ls[id])
      ensures forall i :: 0 <= i < |ls[id]| ==> ls[id][i] in ow && ow[ls[id][i]] == id
    {
      if GridId(g, id) {
        PartNoRepeat(sc, node, id.count, id.node);
        forall i | 0 <= i < |ls[id]|
          ensures ls[id][i] in ow && ow[ls[id][i]] == id
        {
          PartMembers(sc, node, id.count, id.node, ls[id][i]);
        }
      } else {
        forall i | 0 <= i < |ls[id]|
          ensures ls[id][i] in ow && ow[ls[id][i]] == id
        {
          assert s.lists[id][i] in s.owner;
        }
      }
    }
    forall p | p in ow
      ensures ow[p] in ls && p in ls[ow[p]]
    {
      if p in sc {
        PartMembers(sc, node, p.count, node[p], p);
        assert GridId(g, ow[p]);
      } else {
        assert s.owner[p] in s.lists && p in s.lists[s.owner[p]];
        assert !GridId(g, s.owner[p]);
      }
    }
  }

  lemma CountedChains(s: Snapshot, r0: Raw, r: Raw, g: Grid, sc: seq<PageRef>, node: Placement)
    requires ChainsGood(s) && Owned(s.lists, s.owner) && s.owner.Keys == s.next.Keys && r0.head == s.head && OthersKept(r0, r, g)
    requires Distributed(r, g, sc, node) && AllClosed(r.next, g, sc, node)
    requires forall p :: p in sc <==> p in r.next
    requires s.next.Keys !! r.next.Keys
    ensures ChainsGood(Snapshot(r.head, r.tail, r.size, Counted(s.lists, g, sc, node), s.owner + Owners(g, sc, node), s.next + r.next))
  {
    hide Chain;
    hide OthersKept;
    hide Distributed;
    hide AllClosed;
    hide Owned;
    var nx := s.next + r.next;
    var ls := Counted(s.lists, g, sc, node);
    KeptHeads(r0, r, g);
    forall id | id in ls
      ensures Chain(nx, r.head[id], ls[id])
    {
      if GridId(g, id) {
        GridChain(s.next, r, g, sc, node, id);
      } else {
        OldChain(s, r.next, id);
      }
    }
  }

  lemma KeptHeads(r0: Raw, r: Raw, g: Grid)
    requires OthersKept(r0, r, g)
    ensures r.head.Keys == r0.head.Keys && forall id :: id in r0.head && !GridId(g, id) ==> r.head[id] == r0.head[id]
  {
  }

  lemma GridChain(nx: Links, r: Raw, g: Grid, sc: seq<PageRef>, node: Placement, id: ListId)
    requires Distributed(r, g, sc, node) && AllClosed(r.next, g, sc, node) && GridId(g, id)
    ensures id in r.head && Chain(nx + r.next, r.head[id], Part(sc, node, id.count, id.node))
  {
    assert OpenBucket(r, Bucket(g.pid, id.count, id.node), Part(sc, node, id.count, id.node));
    assert Closed(r.next, sc, node, id.count, id.node);
  }

  lemma OldChain(s: Snapshot, nx: Links, id: ListId)
    requires ChainsGood(s) && Owned(s.lists, s.owner) && s.owner.Keys == s.next.Keys && s.next.Keys !! nx.Keys && id in s.lists
    ensures Chain(s.next + nx, s.head[id], s.lists[id])
  {
    var t := s.lists[id];
    assert Chain(s.next, s.head[id], t);
    assert forall i :: 0 <= i < |t| ==> t[i] in s.owner;
  }

  lemma CountedBuckets(s: Snapshot, r0: Raw, r: Raw, g: Grid, sc: seq<PageRef>, node: Placement)
    requires BucketsGood(s) && r0.tail == s.tail && r0.size == s.size && OthersKept(r0, r, g)
    requires Distributed(r, g, sc, node)
    ensures BucketsGood(Snapshot(r.head, r.tail, r.size, Counted(s.lists, g, sc, node), s.owner + Owners(g, sc, node), s.next + r.next))
  {
    var ls := Counted(s.lists, g, sc, node);
    forall id | id in ls && id.Bucket?
      ensures id in r.tail && r.tail[id] == LastOf(ls[id]) && id in r.size && r.size[id] == Total(ls[id])
    {
      if GridId(g, id) {
        assert OpenBucket(r, Bucket(g.pid, id.count, id.node), ls[id]);
      }
    }
  }

  lemma CountedNumbered(s: Snapshot, r0: Raw, r: Raw, g: Grid, sc: seq<PageRef>, node: Placement)
    requires OthersKept(r0, r, g) && Distributed(r, g, sc, node)
    requires forall id :: id in s.lists && id.Bucket? ==> id in r0.num && r0.num[id] == |s.lists[id]|
    ensures var ls := Counted(s.lists, g, sc, node);
      forall id :: id in ls && id.Bucket? ==> id in r.num && r.num[id] == |ls[id]|
  {
    var ls := Counted(s.lists, g, sc, node);
    forall id | id in ls && id.Bucket?
      ensures id in r.num && r.num[id] == |ls[id]|
    {
      if GridId(g, id) {
        assert OpenBucket(r, Bucket(g.pid, id.count, id.node), ls[id]);
      }
    }
  }

  /** The bucket's last page ends its list. */
  ghost predicate Closed(nx: Links, done: seq<PageRef>, node: Placement, c: int, n: int) {
    var t := LastOf(Part(done, node, c, n));
    t != null ==> t in nx && nx[t] == null
  }

  ghost predicate ClosedUpTo(nx: Links, g: Grid, done: seq<PageRef>, node: Placement, c: int, n: int) {
    forall c', n' :: InGrid(g, c', n') && (c' < c || (c' == c && n' < n)) ==> Closed(nx, done, node, c', n')
  }

  ghost predicate AllClosed(nx: Links, g: Grid, done: seq<PageRef>, node: Placement) {
    forall c, n :: InGrid(g, c, n) ==> Closed(nx, done, node, c, n)
  }

  lemma RowClosed(nx: Links, g: Grid, done: seq<PageRef>, node: Placement, c: int, n: int)
    requires ClosedUpTo(nx, g, done, node, c, n) && n >= g.nodeNum
    ensures ClosedUpTo(nx, g, done, node, c + 1, 0)
  {
    hide Closed;
  }

  lemma GridClosed(nx: Links, g: Grid, done: seq<PageRef>, node: Placement, c: int)
    requires ClosedUpTo(nx, g, done, node, c, 0) && c > g.maxCount
    ensures AllClosed(nx, g, done, node)
  {
    hide Closed;
  }

  /** Cutting one bucket after its tail leaves the partition and the buckets already cut as they are. */
  lemma CutTail(r: Raw, g: Grid, done: seq<PageRef>, node: Placement, c: int, n: int)
    requires Distributed(r, g, done, node) && NoRepeat(done) && InGrid(g, c, n)
    requires ClosedUpTo(r.next, g, done, node, c, n)
    ensures HasBucket(r, Bucket(g.pid, c, n))
    ensures var t := r.tail[Bucket(g.pid, c, n)];
      if t == null then ClosedUpTo(r.next, g, done, node, c, n + 1)
      else
        && t in done
        && Distributed(r.(next := r.next[t := null]), g, done, node)
        && ClosedUpTo(r.next[t := null], g, done, node, c, n + 1)
  {
    var id := Bucket(g.pid, c, n);
    var s := Part(done, node, c, n);
    assert OpenBucket(r, id, s);
    var t := r.tail[id];
    if t != null {
      PartMembers(done, node, c, n, t);
      CutDistributed(r, g, done, node, c, n);
      var nx := r.next[t := null];
      forall c', n' | InGrid(g, c', n') && (c' < c || (c' == c && n' < n + 1))
        ensures Closed(nx, done, node, c', n')
      {
        if c' != c || n' != n {
          assert Closed(r.next, done, node, c', n');
        }
      }
    } else {
      forall c', n' | InGrid(g, c', n') && (c' < c || (c' == c && n' < n + 1))
        ensures Closed(r.next, done, node, c', n')
      {
        if c' != c || n' != n {
          assert Closed(r.next, done, node, c', n');
        }
      }
    }
  }

  lemma CutDistributed(r: Raw, g: Grid, done: seq<PageRef>, node: Placement, c: int, n: int)
    requires Distributed(r, g, done, node) && NoRepeat(done) && InGrid(g, c, n) && HasBucket(r, Bucket(g.pid, c, n))
    requires r.tail[Bucket(g.pid, c, n)] != null
    ensures Distributed(r.(next := r.next[r.tail[Bucket(g.pid, c, n)] := null]), g, done, node)
  {
    var id := Bucket(g.pid, c, n);
    var t := r.tail[id];
    var r' := r.(next := r.next[t := null]);
    assert OpenBucket(r, id, Part(done, node, c, n));
    PartMembers(done, node, c, n, t);
    forall c', n' | InGrid(g, c', n')
      ensures OpenBucket(r', Bucket(g.pid, c', n'), Part(done, node, c', n'))
    {
      var s := Part(done, node, c', n');
      assert OpenBucket(r, Bucket(g.pid, c', n'), s);
      PartMembers(done, node, c', n', t);
      PartNoRepeat(done, node, c', n');
      assert forall i :: 0 <= i < |s| - 1 ==> s[i] != t;
    }
  }

  lemma SelfKept(r: Raw, g: Grid)
    ensures OthersKept(r, r, g)
  {
  }

  lemma RelinkKeepsOthers(a: Raw, b: Raw, c: Raw, g: Grid)
    requires OthersKept(a, b, g) && c == b.(next := c.next)
    ensures OthersKept(a, c, g)
  {
  }

  lemma DistributedFrame(r: Raw, nx: Links, g: Grid, done: seq<PageRef>, node: Placement)
    requires Distributed(r, g, done, node)
    requires forall p :: p in done && p in r.next ==> p in nx && nx[p] == r.next[p]
    ensures Distributed(r.(next := nx), g, done, node)
  {
    forall c, n | InGrid(g, c, n)
      ensures OpenBucket(r.(next := nx), Bucket(g.pid, c, n), Part(done, node, c, n))
    {
      var s := Part(done, node, c, n);
      assert OpenBucket(r, Bucket(g.pid, c, n), s);
      forall i | 0 <= i < |s|
        ensures s[i] in done
      {
        PartMembers(done, node, c, n, s[i]);
      }
    }
  }

  lemma JoinedStep(vmas: seq<seq<PageRef>>, cur: nat)
    requires 0 < cur <= |vmas|
    ensures Joined(vmas, cur) == Joined(vmas, cur - 1) + vmas[cur - 1]
  {
  }

  /** A bucket has a first page exactly when it has a last one. */
  lemma EndsMatch(r: Raw, g: Grid, done: seq<PageRef>, node: Placement, c: int, n: int)
    requires Distributed(r, g, done, node) && InGrid(g, c, n)
    ensures HasBucket(r, Bucket(g.pid, c, n))
    ensures r.head[Bucket(g.pid, c, n)] == null <==> r.tail[Bucket(g.pid, c, n)] == null
  {
    assert OpenBucket(r, Bucket(g.pid, c, n), Part(done, node, c, n));
  }
}
