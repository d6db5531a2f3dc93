/**
 The linked lists of one migration round: for every process a bucket per (access count, node)
 and, per node pair, the list of pages chosen to become hot and the list chosen to become cold.
 */
module PageStores {
  import opened Pages

  datatype ListId =
    | Bucket(pid: int, count: int, node: int)
    | Hot(pid: int, pair: int)
    | Cold(pid: int, pair: int)

  type Lists = map<ListId, seq<PageRef>>

  function ListAt(ls: Lists, id: ListId): seq<PageRef> {
    if id in ls then ls[id] else []
  }

  /** Exactly one list holds each page: a page's owner is a function of the page. */
  ghost predicate Owned(ls: Lists, owner: map<PageRef, ListId>) {
    && (forall id, i :: id in ls && 0 <= i < |ls[id]| ==> ls[id][i] in owner && owner[ls[id][i]] == id)
    && (forall p :: p in owner ==> owner[p] in ls && p in ls[owner[p]])
    && (forall id :: id in ls ==> NoRepeat(ls[id]))
  }

  /** Cut `k` pages off the front of `src` and put them, in order, in front of `dst`. */
  function Spliced(ls: Lists, src: ListId, dst: ListId, k: nat): Lists
    requires src in ls && dst in ls && k <= |ls[src]|
  {
    ls[src := ls[src][k..]][dst := ls[src][..k] + ls[dst]]
  }

  ghost function Reowned(ls: Lists, owner: map<PageRef, ListId>, src: ListId, dst: ListId, k: nat): map<PageRef, ListId>
    requires src in ls && k <= |ls[src]|
  {
    map p | p in owner :: if p in ls[src][..k] then dst else owner[p]
  }

  /** A splice moves pages between lists; it neither loses, duplicates nor invents one. */
  lemma SpliceKeepsOwners(ls: Lists, owner: map<PageRef, ListId>, src: ListId, dst: ListId, k: nat)
    requires Owned(ls, owner) && src in ls && dst in ls && src != dst && k <= |ls[src]|
    ensures Owned(Spliced(ls, src, dst, k), Reowned(ls, owner, src, dst, k))
    ensures Reowned(ls, owner, src, dst, k).Keys == owner.Keys
  {
    var ls' := Spliced(ls, src, dst, k);
    var owner' := Reowned(ls, owner, src, dst, k);
    var s := ls[src];
    forall id, i | id in ls' && 0 <= i < |ls'[id]|
      ensures ls'[id][i] in owner' && owner'[ls'[id][i]] == id
    {
      var p := ls'[id][i];
      if id == dst {
        if i < k {
          assert p == s[i] && p in s[..k];
        } else {
          assert p == ls[dst][i - k];
          assert owner[p] == dst;
        }
      } else if id == src {
        assert p == s[k + i];
        assert p !in s[..k];
      } else {
        assert owner[p] == id;
        assert p !in s[..k];
      }
    }
    forall p | p in owner'
      ensures owner'[p] in ls' && p in ls'[owner'[p]]
    {
      if p in s[..k] {
        assert p in ls'[dst];
      } else if owner[p] == src {
        assert s == s[..k] + s[k..];
        assert p in s[k..];
      } else if owner[p] == dst {
        assert p in ls[dst];
      }
    }
    forall id | id in ls'
      ensures NoRepeat(ls'[id])
    {
      if id == dst {
        forall i, j | 0 <= i < j < |ls'[dst]|
          ensures ls'[dst][i] != ls'[dst][j]
        {
          if i < k <= j {
            assert owner[s[i]] == src && owner[ls[dst][j - k]] == dst;
          }
        }
      }
    }
  }

  function LastOf(s: seq<PageRef>): PageRef? {
    if s == [] then null else s[|s| - 1]
  }

  /** Redirecting the link of `t` leaves every chain that does not contain `t` intact. */
  lemma ChainFrame(nx: Links, head: PageRef?, s: seq<PageRef>, t: PageRef, to: PageRef?)
    requires Chain(nx, head, s) && t !in s
    ensures Chain(nx[t := to], head, s)
  {
  }

  /** Cutting `s` after its first `k` nodes and pointing node `k - 1` at the list `d`. */
  lemma SpliceChains(nx: Links, head: PageRef?, s: seq<PageRef>, dstHead: PageRef?, d: seq<PageRef>, k: nat)
    requires Chain(nx, head, s) && Chain(nx, dstHead, d) && NoRepeat(s)
    requires 0 < k <= |s| && s[k - 1] !in d
    ensures Chain(nx[s[k - 1] := dstHead], nx[s[k - 1]], s[k..])
    ensures Chain(nx[s[k - 1] := dstHead], head, s[..k] + d)
  {
    var t := s[k - 1];
    var nx' := nx[t := dstHead];
    assert t !in s[k..];
    assert Chain(nx, nx[t], s[k..]);
    ChainFrame(nx, nx[t], s[k..], t, dstHead);
    ChainFrame(nx, dstHead, d, t, dstHead);
    var r := s[..k] + d;
    forall i | 0 <= i < |r| - 1
      ensures r[i] in nx' && nx'[r[i]] == r[i + 1]
    {
      if i < k - 1 {
        assert r[i] == s[i] != t;
      } else if i >= k {
        assert r[i] == d[i - k] && r[i + 1] == d[i - k + 1];
      }
    }
  }

  /** Every field of the store, and every page's link, at one moment. */
  datatype Snapshot = Snapshot(
    head: map<ListId, PageRef?>, tail: map<ListId, PageRef?>, size: map<ListId, int>,
    lists: Lists, owner: map<PageRef, ListId>, next: Links)

  ghost predicate ChainsGood(s: Snapshot) {
    && s.head.Keys == s.lists.Keys
    && forall id :: id in s.lists ==> Chain(s.next, s.head[id], s.lists[id])
  }

  ghost predicate BucketsGood(s: Snapshot) {
    forall id :: id in s.lists && id.Bucket? ==>
      id in s.tail && s.tail[id] == LastOf(s.lists[id]) && id in s.size && s.size[id] == Total(s.lists[id])
  }

  /** What holds of the store between operations: every list is a chain of its own pages,
      every bucket knows its last page and its bytes, and no page is in two lists. */
  ghost predicate Good(s: Snapshot) {
    ChainsGood(s) && BucketsGood(s) && Owned(s.lists, s.owner) && s.owner.Keys == s.next.Keys
  }

  ghost predicate CanMove(s: Snapshot, src: ListId, dst: ListId) {
    src in s.lists && src.Bucket? && dst in s.lists && !dst.Bucket?
  }

  /** The store after the first `k` pages of `src` went to `dst`. */
  ghost function Moved(s: Snapshot, src: ListId, dst: ListId, k: nat): Snapshot
    requires CanMove(s, src, dst) && src in s.head && dst in s.head && src in s.tail && src in s.size
    requires 0 < k <= |s.lists[src]| && s.lists[src][k - 1] in s.next
  {
    var t := s.lists[src][k - 1];
    Snapshot(
      s.head[dst := s.head[src]][src := s.next[t]],
      if s.next[t] == null then s.tail[src := null] else s.tail,
      s.size[src := s.size[src] - Total(s.lists[src][..k])],
      Spliced(s.lists, src, dst, k),
      Reowned(s.lists, s.owner, src, dst, k),
      s.next[t := s.head[dst]])
  }

  lemma BucketFields(s: Snapshot, id: ListId)
    requires Good(s) && id in s.lists && id.Bucket?
    ensures id in s.head && id in s.tail && id in s.size
    ensures s.tail[id] == LastOf(s.lists[id]) && s.size[id] == Total(s.lists[id])
    ensures s.lists[id] == [] ==> s.head[id] == null
  {
    assert Chain(s.next, s.head[id], s.lists[id]);
  }

  lemma LastInLinks(s: Snapshot, src: ListId, k: nat)
    requires Good(s) && src in s.lists && k <= |s.lists[src]|
    ensures src in s.head && (s.lists[src] != [] ==> s.head[src] == s.lists[src][0])
    ensures 0 < k ==>
      var t := s.lists[src][k - 1];
      t in s.owner && s.owner[t] == src && t in s.next
      && s.next[t] == if k < |s.lists[src]| then s.lists[src][k] else null
  {
    assert Chain(s.next, s.head[src], s.lists[src]);
  }

  lemma MovedChains(s: Snapshot, src: ListId, dst: ListId, k: nat, id: ListId)
    requires Good(s) && CanMove(s, src, dst) && 0 < k <= |s.lists[src]| && id in s.lists
    requires src in s.head && dst in s.head && src in s.tail && src in s.size && s.lists[src][k - 1] in s.next
    ensures var r := Moved(s, src, dst, k); id in r.head && Chain(r.next, r.head[id], r.lists[id])
  {
    var t := s.lists[src][k - 1];
    LastInLinks(s, src, k);
    assert Chain(s.next, s.head[id], s.lists[id]);
    if id == src || id == dst {
      assert Chain(s.next, s.head[dst], s.lists[dst]);
      assert t !in s.lists[dst];
      SpliceChains(s.next, s.head[src], s.lists[src], s.head[dst], s.lists[dst], k);
    } else {
      assert t !in s.lists[id];
      ChainFrame(s.next, s.head[id], s.lists[id], t, s.head[dst]);
    }
  }

  lemma MovedAllChains(s: Snapshot, src: ListId, dst: ListId, k: nat)
    requires Good(s) && CanMove(s, src, dst) && 0 < k <= |s.lists[src]|
    requires src in s.head && dst in s.head && src in s.tail && src in s.size && s.lists[src][k - 1] in s.next
    ensures ChainsGood(Moved(s, src, dst, k))
  {
    hide Chain;
    hide Owned;
    hide BucketsGood;
    var r := Moved(s, src, dst, k);
    forall id | id in r.lists
      ensures Chain(r.next, r.head[id], r.lists[id])
    {
      MovedChains(s, src, dst, k, id);
    }
  }

  lemma MovedBuckets(s: Snapshot, src: ListId, dst: ListId, k: nat)
    requires BucketsGood(s) && CanMove(s, src, dst) && 0 < k <= |s.lists[src]|
    requires src in s.head && dst in s.head && src in s.tail && src in s.size && s.lists[src][k - 1] in s.next
    requires s.next[s.lists[src][k - 1]] == if k < |s.lists[src]| then s.lists[src][k] else null
    ensures BucketsGood(Moved(s, src, dst, k))
  {
    hide Total;
    TotalSplit(s.lists[src], k);
  }

  /** Relinking keeps every list well formed and every page in exactly one list. */
  lemma MovedGood(s: Snapshot, src: ListId, dst: ListId, k: nat)
    requires Good(s) && CanMove(s, src, dst) && 0 < k <= |s.lists[src]|
    ensures src in s.head && dst in s.head && src in s.tail && src in s.size && s.lists[src][k - 1] in s.next
    ensures Good(Moved(s, src, dst, k)) && Moved(s, src, dst, k).owner.Keys == s.owner.Keys
  {
    hide ChainsGood;
    hide Owned;
    hide BucketsGood;
    LastInLinks(s, src, k);
    LastInLinks(s, dst, 0);
    BucketFields(s, src);
    MovedAllChains(s, src, dst, k);
    MovedBuckets(s, src, dst, k);
    SpliceKeepsOwners(s.lists, s.owner, src, dst, k);
  }

  /** Every page is in exactly one list, at one position. */
  lemma ExactlyOneList(s: Snapshot, p: PageRef)
    requires Good(s) && p in s.next
    ensures exists id :: id in s.lists && p in s.lists[id] && forall other :: other in s.lists && p in s.lists[other] ==> other == id
    ensures forall id, i, j ::
      id in s.lists && 0 <= i < |s.lists[id]| && 0 <= j < |s.lists[id]| && s.lists[id][i] == p == s.lists[id][j] ==> i == j
  {
    hide Chain;
    hide BucketsGood;
    var id := s.owner[p];
    assert id in s.lists && p in s.lists[id];
    forall other | other in s.lists && p in s.lists[other]
      ensures other == id
    {
      var i :| 0 <= i < |s.lists[other]| && s.lists[other][i] == p;
      assert s.owner[s.lists[other][i]] == other;
    }
  }

  ghost function NextOf(pages: set<PageRef>): Links
    reads pages
  {
    map p | p in pages :: p.next
  }

  class PageStore {
    var head: map<ListId, PageRef?>
    // The remaining fields of `struct node_page_refs` exist for the buckets only.
    var tail: map<ListId, PageRef?>
    var size: map<ListId, int>
    var num: map<ListId, int>
    ghost var lists: Lists
    ghost var owner: map<PageRef, ListId>
    ghost var pages: set<PageRef>

    ghost function Now(): (s: Snapshot)
      reads this, pages
    {
      Snapshot(head, tail, size, lists, owner, NextOf(pages))
    }

    ghost predicate Valid()
      reads this, pages
    {
      Good(Now())
    }

    /** Every bucket's page counter is its length. */
    ghost predicate Numbered()
      reads this
    {
      forall id :: id in lists && id.Bucket? ==> id in num && num[id] == |lists[id]|
    }

    lemma NodeAt(src: ListId, k: nat)
      requires Valid() && src in lists && k < |lists[src]|
      ensures lists[src][k] in pages && lists[src][k].next == if k + 1 < |lists[src]| then lists[src][k + 1] else null
      ensures src in head && head[src] == lists[src][0]
    {
      LastInLinks(Now(), src, k + 1);
    }

    /** Find the last node that still fits, and the bytes up to and including it. */
    method Cut(src: ListId, budget: int) returns (t: PageRef?, movedSize: int)
      requires Valid() && src in lists && src.Bucket? && 0 <= budget
      ensures t == LastOf(Fit(lists[src], budget))
      ensures movedSize == Total(Fit(lists[src], budget))
    {
      hide Good;
      hide FitLen;
      hide NextOf;
      ghost var s := lists[src];
      BucketFields(Now(), src);
      FitAll(s, budget);
      if size[src] <= budget {
        assert Fit(s, budget) == s;
        return tail[src], size[src];
      }
      var iter := head[src];
      t, movedSize := null, 0;
      ghost var k: nat := 0;
      if s != [] {
        NodeAt(src, 0);
      }
      while iter != null && movedSize + iter.size <= budget
        invariant 0 <= k <= |s|
        invariant iter == if k < |s| then s[k] else null
        invariant t == LastOf(s[..k])
        invariant movedSize == Total(s[..k]) <= budget
        decreases |s| - k
      {
        TotalTake(s, k);
        NodeAt(src, k);
        movedSize := movedSize + iter.size;
        t := iter;
        iter := iter.next;
        k := k + 1;
      }
      FitFound(s, budget, k);
    }

    /** `move_npf_to_list`: move to `dst` the longest prefix of bucket `src` that fits into `budget`. */
    method MoveToList(src: ListId, dst: ListId, budget: int)
      requires Valid() && CanMove(Now(), src, dst) && 0 <= budget
      modifies this`head, this`tail, this`size, this`lists, this`owner, pages
      ensures Valid()
      ensures lists == Spliced(old(lists), src, dst, FitLen(old(lists)[src], budget))
    {
      hide Good;
      var t, movedSize := Cut(src, budget);
      ghost var k := FitLen(lists[src], budget);
      if t != null {
        NodeAt(src, k - 1);
        Relink(src, dst, k, t, movedSize);
      } else {
        BucketFields(Now(), src);
        assert k == 0 && lists[src][0..] == lists[src] && [] + lists[dst] == lists[dst];
        assert Spliced(lists, src, dst, k) == lists;
        size := size[src := size[src] - movedSize];
        assert size == old(size);
        assert Now() == old(Now());
      }
    }

    method SetNext(t: PageRef, to: PageRef?)
      requires t in pages
      modifies t`next
      ensures t.next == to && Now() == old(Now()).(next := old(Now()).next[t := to])
    {
      t.next := to;
    }

    /** Relinking: the nodes up to `t` go, as they are linked, in front of `dst`. */
    method Relink(src: ListId, dst: ListId, ghost k: nat, t: PageRef, movedSize: int)
      requires Valid() && CanMove(Now(), src, dst)
      requires 0 < k <= |lists[src]| && t == lists[src][k - 1] && movedSize == Total(lists[src][..k])
      modifies this`head, this`tail, this`size, this`lists, this`owner, t
      ensures Valid()
      ensures lists == Spliced(old(lists), src, dst, k)
    {
      hide Good;
      hide Total;
      hide Spliced;
      hide Reowned;
      ghost var s := Now();
      MovedGood(s, src, dst, k);
      NodeAt(src, k - 1);
      var tmp := t.next;
      SetNext(t, head[dst]);
      Retarget(src, dst, k, tmp, movedSize);
      assert Now() == Moved(s, src, dst, k);
    }

    /** The list heads, and the bucket's tail and size, after its nodes before `rest` went to `dst`. */
    method Retarget(src: ListId, dst: ListId, ghost k: nat, rest: PageRef?, movedSize: int)
      requires src in head && dst in head && src in size && src in lists && dst in lists && k <= |lists[src]|
      modifies this`head, this`tail, this`size, this`lists, this`owner
      ensures head == old(head)[dst := old(head)[src]][src := rest]
      ensures tail == if rest == null then old(tail)[src := null] else old(tail)
      ensures size == old(size)[src := old(size)[src] - movedSize]
      ensures lists == Spliced(old(lists), src, dst, k) && owner == Reowned(old(lists), old(owner), src, dst, k)
    {
      head := head[dst := head[src]];
      head := head[src := rest];
      if rest == null {
        tail := tail[src := null];
      }
      size := size[src := size[src] - movedSize];
      owner := Reowned(lists, owner, src, dst, k);
      lists := Spliced(lists, src, dst, k);
    }
  }
}
