/**
 The slide engine's choice of pages to swap out. Pages are sorted into five lists by how likely they are
 to be visited; with a DRAM target set, pages are taken from the least likely list on until the target
 is met or a page is likely enough to stay.
 */
module Slide {
  datatype Page = Page(addr: nat, possibility: real)

  const BUCKETS := 5

  /** `sort_by_possibility`. */
  function BucketOf(p: real): (b: nat)
    ensures b < BUCKETS
  {
    if p < 0.05 then 0 else if p < 0.1 then 1 else if p < 0.2 then 2 else if p < 0.4 then 3 else 4
  }

  /** The conversion of a floating-point number to an integer cuts towards zero. */
  function Truncate(x: real): int {
    if x >= 0.0 then x.Floor else -(-x).Floor
  }

  predicate Hot(p: Page, t: int) {
    Truncate(p.possibility * 100.0) >= t
  }

  function Reverse(s: seq<Page>): (r: seq<Page>)
    ensures |r| == |s|
  {
    if s == [] then [] else Reverse(s[1..]) + [s[0]]
  }

  /** `check_should_migrate`, on the resident and swapped kilobytes of the process. */
  function Target(rss: nat, swap: nat, percent: nat): nat {
    (rss + swap) / 100 * percent
  }

  function Need(rss: nat, swap: nat, percent: nat, pagesize: nat): nat
    requires pagesize > 0
  {
    if Target(rss, swap, percent) > rss then 0 else (rss - Target(rss, swap, percent)) * 1024 / pagesize
  }

  // ----- the lists

  function OfBucket(pages: seq<Page>, b: nat): seq<Page> {
    if pages == [] then []
    else (if BucketOf(pages[0].possibility) == b then [pages[0]] else []) + OfBucket(pages[1..], b)
  }

  /** The lists from number `i` on, one behind the other. */
  function Join(buckets: seq<seq<Page>>, i: nat): seq<Page>
    decreases |buckets| - i
  {
    if i >= |buckets| then [] else buckets[i] + Join(buckets, i + 1)
  }

  /** The pages by list, each list latest page first: the order in which they are offered. */
  function Offered(pages: seq<Page>): seq<Page> {
    Join(Sorted(pages), 0)
  }

  function Sorted(pages: seq<Page>): seq<seq<Page>> {
    seq(BUCKETS, b requires 0 <= b < BUCKETS => Reverse(OfBucket(pages, b)))
  }

  /** Index of the first page likely enough to stay. */
  function FirstHot(pages: seq<Page>, t: int): (k: nat)
    ensures k <= |pages| && (k < |pages| ==> Hot(pages[k], t))
    ensures forall i :: 0 <= i < k ==> !Hot(pages[i], t)
  {
    if pages == [] || Hot(pages[0], t) then 0 else 1 + FirstHot(pages[1..], t)
  }

  function Min(a: nat, b: nat): nat {
    if a < b then a else b
  }

  /** The page at which the search stops goes to the hot list when there was still need for pages. */
  function HotTaken(order: seq<Page>, need: nat, t: int): seq<Page> {
    var k := FirstHot(order, t);
    if k < need && k < |order| then [order[k]] else []
  }

  class Grading {
    var pages: seq<Page>
    var buckets: seq<seq<Page>>
    var hot: seq<Page>
    var cold: seq<Page>

    constructor (pages: seq<Page>)
      ensures this.pages == pages && buckets == [[], [], [], [], []] && hot == [] && cold == []
    {
      this.pages, buckets, hot, cold := pages, [[], [], [], [], []], [], [];
    }

    /** `sort_page_refs` with a DRAM target: every page to the head of its list. */
    method SortPages()
      requires buckets == [[], [], [], [], []]
      modifies this`pages, this`buckets
      ensures pages == [] && buckets == Sorted(old(pages)) && Banded(old(pages), buckets)
    {
      hide Reverse;
      hide OfBucket;
      hide BucketOf;
      hide Banded;
      ghost var all := pages;
      ghost var done: seq<Page> := [];
      SortedByBand(all);
      forall b: nat
        ensures Reverse(OfBucket([], b)) == []
      {
        NoneYet(b);
      }
      while pages != []
        invariant all == done + pages && |buckets| == BUCKETS
        invariant forall b :: 0 <= b < BUCKETS ==> buckets[b] == Reverse(OfBucket(done, b))
        decreases |pages|
      {
        var page := pages[0];
        var index := BucketOf(page.possibility);
        forall b | 0 <= b < BUCKETS
          ensures Reverse(OfBucket(done + [page], b)) == (if b == index then [page] else []) + Reverse(OfBucket(done, b))
        {
          OneMore(done, page, b);
        }
        buckets := buckets[index := [page] + buckets[index]];
        pages := pages[1..];
        done := done + [page];
      }
      assert done == all && buckets == Sorted(all);
    }

    /** `slide_policy_interface` without a DRAM target: split the pages by their likelihood. */
    method Split(t: int)
      requires hot == [] && cold == []
      modifies this`pages, this`hot, this`cold
      ensures pages == []
      ensures hot == Reverse(Likely(old(pages), t, true)) && cold == Reverse(Likely(old(pages), t, false))
    {
      hide Reverse;
      hide Likely;
      hide Hot;
      ghost var all := pages;
      ghost var done: seq<Page> := [];
      NoneLikely(t);
      while pages != []
        invariant all == done + pages
        invariant hot == Reverse(Likely(done, t, true)) && cold == Reverse(Likely(done, t, false))
        decreases |pages|
      {
        LikelyMore(done, pages[0], t, true);
        LikelyMore(done, pages[0], t, false);
        if Hot(pages[0], t) {
          hot := [pages[0]] + hot;
        } else {
          cold := [pages[0]] + cold;
        }
        done := done + [pages[0]];
        pages := pages[1..];
      }
      assert done == all;
    }

    /** `slide_policy_interface` with a DRAM target. */
    method Select(t: int, need: nat)
      requires hot == [] && cold == []
      modifies this`buckets, this`hot, this`cold
      ensures var order := Join(old(buckets), 0); var k := Min(need, FirstHot(order, t));
        && cold == Reverse(order[..k]) && hot == HotTaken(order, need, t)
        && Join(buckets, 0) == order[k + |hot|..]
    {
      hide Midway;
      hide FirstHot;
      hide Reverse;
      hide Join;
      hide Hot;
      ghost var order := Join(buckets, 0);
      MidwayStart(order, buckets, t);
      var count: nat := 0;
      if need == 0 {
        MidwayEnd(order, buckets, 0, count, cold, t);
        return;
      }
      for i := 0 to |buckets|
        invariant |buckets| == |old(buckets)| && count < need && hot == [] && Midway(order, buckets, i, count, cold, t)
      {
        while buckets[i] != []
          invariant |buckets| == |old(buckets)| && count < need && hot == [] && Midway(order, buckets, i, count, cold, t)
          decreases |buckets[i]|
        {
          var page := buckets[i][0];
          MidwayEnd(order, buckets, i, count, cold, t);
          MidwayPop(order, buckets, i, count, cold, t);
          buckets := buckets[i := buckets[i][1..]];
          if Hot(page, t) {
            hot := [page] + hot;
            return;
          }
          cold := [page] + cold;
          count := count + 1;
          if count >= need {
            MidwayEnd(order, buckets, i, count, cold, t);
            return;
          }
        }
        MidwaySkip(order, buckets, i, count, cold, t);
      }
      MidwayEnd(order, buckets, |buckets|, count, cold, t);
    }
  }

  /** `count` pages of the order were taken, all cold, and the lists from `i` on hold the others. */
  ghost predicate Midway(order: seq<Page>, buckets: seq<seq<Page>>, i: nat, count: nat, cold: seq<Page>, t: int) {
    && count <= FirstHot(order, t) && cold == Reverse(order[..count])
    && Join(buckets, i) == order[count..] && Join(buckets, 0) == Join(buckets, i)
  }

  lemma MidwayStart(order: seq<Page>, buckets: seq<seq<Page>>, t: int)
    requires order == Join(buckets, 0)
    ensures Midway(order, buckets, 0, 0, [], t)
  {
    assert order[..0] == [] && order[0..] == order;
  }

  lemma MidwayPop(order: seq<Page>, buckets: seq<seq<Page>>, i: nat, count: nat, cold: seq<Page>, t: int)
    requires Midway(order, buckets, i, count, cold, t) && i < |buckets| && buckets[i] != []
    ensures var page := buckets[i][0]; var left := buckets[i := buckets[i][1..]];
      && count < |order| && order[count] == page
      && Join(left, 0) == order[count + 1..]
      && (Hot(page, t) ==> FirstHot(order, t) == count)
      && (!Hot(page, t) ==> Midway(order, left, i, count + 1, [page] + cold, t))
  {
    hide FirstHot;
    hide Reverse;
    hide Hot;
    JoinPop(buckets, i);
    assert order[count] == order[count..][0] && order[count..][1..] == order[count + 1..];
    FirstHotFound(order, count, t);
    assert order[..count + 1] == order[..count] + [order[count]];
    ReverseMore(order[..count], order[count]);
  }

  lemma MidwaySkip(order: seq<Page>, buckets: seq<seq<Page>>, i: nat, count: nat, cold: seq<Page>, t: int)
    requires Midway(order, buckets, i, count, cold, t) && i < |buckets| && buckets[i] == []
    ensures Midway(order, buckets, i + 1, count, cold, t)
  {
  }

  lemma MidwayEnd(order: seq<Page>, buckets: seq<seq<Page>>, i: nat, count: nat, cold: seq<Page>, t: int)
    requires Midway(order, buckets, i, count, cold, t)
    ensures count <= FirstHot(order, t) && cold == Reverse(order[..count]) && Join(buckets, 0) == order[count..]
    ensures i >= |buckets| ==> count == |order|
  {
  }

  // ----- the steps of the loops

  lemma NoneYet(b: nat)
    ensures Reverse(OfBucket([], b)) == []
  {
  }

  lemma NoneLikely(t: int)
    ensures Reverse(Likely([], t, true)) == [] && Reverse(Likely([], t, false)) == []
  {
  }

  lemma {:induction false} ReverseMore(s: seq<Page>, p: Page)
    ensures Reverse(s + [p]) == [p] + Reverse(s)
  {
    if s == [] {
      assert s + [p] == [p];
    } else {
      assert (s + [p])[1..] == s[1..] + [p];
      ReverseMore(s[1..], p);
    }
  }

  lemma {:induction false} OneMore(done: seq<Page>, page: Page, b: nat)
    ensures OfBucket(done + [page], b) == OfBucket(done, b) + (if BucketOf(page.possibility) == b then [page] else [])
    ensures Reverse(OfBucket(done + [page], b))
         == (if BucketOf(page.possibility) == b then [page] else []) + Reverse(OfBucket(done, b))
  {
    OfBucketAppend(done, page, b);
    ReverseMore(OfBucket(done, b), page);
    assert OfBucket(done, b) + [] == OfBucket(done, b);
  }

  lemma {:induction false} OfBucketAppend(done: seq<Page>, page: Page, b: nat)
    ensures OfBucket(done + [page], b) == OfBucket(done, b) + (if BucketOf(page.possibility) == b then [page] else [])
  {
    if done != [] {
      assert (done + [page])[1..] == done[1..] + [page];
      OfBucketAppend(done[1..], page, b);
    }
  }

  function Likely(pages: seq<Page>, t: int, hot: bool): seq<Page> {
    if pages == [] then []
    else (if Hot(pages[0], t) == hot then [pages[0]] else []) + Likely(pages[1..], t, hot)
  }

  lemma {:induction false} LikelyAppend(done: seq<Page>, page: Page, t: int, hot: bool)
    ensures Likely(done + [page], t, hot) == Likely(done, t, hot) + (if Hot(page, t) == hot then [page] else [])
  {
    if done != [] {
      assert (done + [page])[1..] == done[1..] + [page];
      LikelyAppend(done[1..], page, t, hot);
    }
  }

  lemma LikelyMore(done: seq<Page>, page: Page, t: int, hot: bool)
    ensures Reverse(Likely(done + [page], t, hot)) == (if Hot(page, t) == hot then [page] else []) + Reverse(Likely(done, t, hot))
  {
    hide Hot;
    LikelyAppend(done, page, t, hot);
    ReverseMore(Likely(done, t, hot), page);
    assert Likely(done, t, hot) + [] == Likely(done, t, hot);
  }

  lemma FirstHotFound(order: seq<Page>, k: nat, t: int)
    requires k <= FirstHot(order, t)
    ensures k < |order| ==> (Hot(order[k], t) <==> k == FirstHot(order, t))
    ensures k == 0 && order == [] ==> FirstHot(order, t) == 0
  {
    hide Hot;
  }

  lemma {:induction false} JoinPop(buckets: seq<seq<Page>>, i: nat)
    requires i < |buckets| && buckets[i] != []
    ensures Join(buckets, i) != [] && Join(buckets, i)[0] == buckets[i][0]
    ensures Join(buckets[i := buckets[i][1..]], i) == Join(buckets, i)[1..]
    ensures Join(buckets, 0) == Join(buckets, i) ==>
      Join(buckets[i := buckets[i][1..]], 0) == Join(buckets[i := buckets[i][1..]], i)
  {
    var popped := buckets[i := buckets[i][1..]];
    JoinFrame(buckets, popped, i + 1);
    if Join(buckets, 0) == Join(buckets, i) {
      JoinEmpty(buckets, popped, 0, i);
    }
  }

  lemma {:induction false} JoinFrame(a: seq<seq<Page>>, b: seq<seq<Page>>, i: nat)
    requires |a| == |b| && forall k :: i <= k < |a| ==> a[k] == b[k]
    ensures Join(a, i) == Join(b, i)
    decreases |a| - i
  {
    if i < |a| {
      JoinFrame(a, b, i + 1);
    }
  }

  /** When the lists before `i` add nothing they are empty, and stay so. */
  lemma {:induction false} JoinEmpty(a: seq<seq<Page>>, b: seq<seq<Page>>, j: nat, i: nat)
    requires j <= i < |a| == |b| && (forall k :: j <= k < i ==> a[k] == b[k])
    requires |Join(a, j)| <= |Join(a, i)|
    ensures Join(b, j) == Join(b, i)
    decreases i - j
  {
    if j < i {
      JoinLonger(a, j + 1, i);
      JoinEmpty(a, b, j + 1, i);
    }
  }

  lemma {:induction false} JoinLonger(a: seq<seq<Page>>, j: nat, i: nat)
    requires j <= i
    ensures |Join(a, i)| <= |Join(a, j)|
    decreases i - j
  {
    if j < i {
      JoinLonger(a, j + 1, i);
    }
  }

  // ----- the bands of likelihood

  const LIMITS: seq<real> := [0.05, 0.1, 0.2, 0.4]

  /** List `b` is for likelihoods from one limit up to the next. */
  predicate InBand(x: real, b: nat) {
    b <= |LIMITS| && (b > 0 ==> LIMITS[b - 1] <= x) && (b < |LIMITS| ==> x < LIMITS[b])
  }

  /** No limit lies between the two. */
  predicate SameBand(x: real, y: real) {
    forall i :: 0 <= i < |LIMITS| ==> (x < LIMITS[i] <==> y < LIMITS[i])
  }

  /** The list number grows with the likelihood, and changes at the four limits only. */
  lemma Bands(x: real, y: real, b: nat)
    ensures BucketOf(x) == b <==> InBand(x, b)
    ensures x <= y ==> BucketOf(x) <= BucketOf(y)
    ensures BucketOf(x) == BucketOf(y) <==> SameBand(x, y)
  {
    assert |LIMITS| == 4 && LIMITS[0] == 0.05 && LIMITS[1] == 0.1 && LIMITS[2] == 0.2 && LIMITS[3] == 0.4;
  }

  /** Each list holds exactly the pages of its band, as often as they were scanned. */
  ghost predicate Banded(pages: seq<Page>, buckets: seq<seq<Page>>) {
    && |buckets| == |LIMITS| + 1
    && forall b, p :: 0 <= b < |buckets| ==>
         multiset(buckets[b])[p] == if InBand(p.possibility, b) then multiset(pages)[p] else 0
  }

  lemma {:induction false} OfBucketCount(pages: seq<Page>, b: nat, p: Page)
    ensures multiset(OfBucket(pages, b))[p] == if BucketOf(p.possibility) == b then multiset(pages)[p] else 0
  {
    hide BucketOf;
    if pages != [] {
      OfBucketCount(pages[1..], b, p);
      assert pages == [pages[0]] + pages[1..];
    }
  }

  lemma SortedByBand(pages: seq<Page>)
    ensures Banded(pages, Sorted(pages))
  {
    hide Reverse;
    hide OfBucket;
    hide BucketOf;
    hide InBand;
    forall b: nat, p | b < BUCKETS
      ensures multiset(Sorted(pages)[b])[p] == if InBand(p.possibility, b) then multiset(pages)[p] else 0
    {
      ReverseKeeps(OfBucket(pages, b));
      OfBucketCount(pages, b, p);
      Bands(p.possibility, p.possibility, b);
    }
  }

  /** A page stays when its likelihood is at least `t` percent; for a `t` that is not positive, when it is more
      than `t - 1` percent. */
  lemma HotMeans(p: Page, t: int)
    ensures t >= 1 ==> (Hot(p, t) <==> p.possibility * 100.0 >= t as real)
    ensures t <= 0 ==> (Hot(p, t) <==> p.possibility * 100.0 > (t - 1) as real)
  {
    hide Hot;
    Cut(p.possibility * 100.0, t);
    assert Hot(p, t) <==> Truncate(p.possibility * 100.0) >= t by { HotIs(p, t); }
  }

  lemma HotIs(p: Page, t: int)
    ensures Hot(p, t) <==> Truncate(p.possibility * 100.0) >= t
  {
  }

  lemma Cut(x: real, t: int)
    ensures t >= 1 ==> (Truncate(x) >= t <==> x >= t as real)
    ensures t <= 0 ==> (Truncate(x) >= t <==> x > (t - 1) as real)
  {
  }

  // ----- what the selection means

  /** Without a target, every page goes to exactly one of the two lists, by its likelihood. */
  lemma {:induction false} SplitKeepsAll(pages: seq<Page>, t: int)
    ensures multiset(Likely(pages, t, true)) + multiset(Likely(pages, t, false)) == multiset(pages)
  {
    hide Hot;
    if pages != [] {
      var a, b := Likely(pages[1..], t, true), Likely(pages[1..], t, false);
      var p := pages[0];
      SplitKeepsAll(pages[1..], t);
      assert pages == [p] + pages[1..];
      if Hot(p, t) {
        assert Likely(pages, t, true) == [p] + a && Likely(pages, t, false) == [] + b == b;
        hide Likely;
        assert multiset([p] + a) == multiset{p} + multiset(a);
      } else {
        assert Likely(pages, t, false) == [p] + b && Likely(pages, t, true) == [] + a == a;
        hide Likely;
        assert multiset([p] + b) == multiset{p} + multiset(b);
      }
    }
  }

  lemma {:induction false} LikelyMeans(pages: seq<Page>, t: int, hot: bool)
    ensures forall i :: 0 <= i < |Likely(pages, t, hot)| ==> Hot(Likely(pages, t, hot)[i], t) == hot
  {
    hide Hot;
    if pages != [] {
      LikelyMeans(pages[1..], t, hot);
    }
  }

  lemma {:induction false} ReverseKeeps(s: seq<Page>)
    ensures multiset(Reverse(s)) == multiset(s)
  {
    if s != [] {
      ReverseKeeps(s[1..]);
      assert s == [s[0]] + s[1..];
    }
  }

  ghost predicate AllIn(s: seq<Page>, b: nat) {
    forall i :: 0 <= i < |s| ==> BucketOf(s[i].possibility) == b
  }

  lemma {:induction false} OfBucketAll(pages: seq<Page>, b: nat)
    ensures AllIn(OfBucket(pages, b), b)
  {
    if pages != [] {
      OfBucketAll(pages[1..], b);
    }
  }

  lemma {:induction false} ReverseAllIn(s: seq<Page>, b: nat)
    requires AllIn(s, b)
    ensures AllIn(Reverse(s), b)
  {
    if s != [] {
      assert AllIn(s[1..], b);
      ReverseAllIn(s[1..], b);
    }
  }

  /** Each page is in one of the five lists, as often as it was scanned. */
  lemma {:induction false} BucketsPartition(pages: seq<Page>)
    ensures multiset(OfBucket(pages, 0)) + multiset(OfBucket(pages, 1)) + multiset(OfBucket(pages, 2))
          + multiset(OfBucket(pages, 3)) + multiset(OfBucket(pages, 4)) == multiset(pages)
  {
    if pages != [] {
      var p, rest := pages[0], pages[1..];
      BucketsPartition(rest);
      assert pages == [p] + rest;
      BucketMore(pages, 0);
      BucketMore(pages, 1);
      BucketMore(pages, 2);
      BucketMore(pages, 3);
      BucketMore(pages, 4);
      hide OfBucket;
      OneOfFive(BucketOf(p.possibility), multiset{p}, multiset(OfBucket(rest, 0)), multiset(OfBucket(rest, 1)),
                multiset(OfBucket(rest, 2)), multiset(OfBucket(rest, 3)), multiset(OfBucket(rest, 4)));
    }
  }

  /** What the first page adds to a list. */
  function Own(b: nat, c: nat, m: multiset<Page>): multiset<Page> {
    if b == c then m else multiset{}
  }

  lemma BucketMore(pages: seq<Page>, c: nat)
    requires pages != []
    ensures multiset(OfBucket(pages, c))
         == Own(BucketOf(pages[0].possibility), c, multiset{pages[0]}) + multiset(OfBucket(pages[1..], c))
  {
    hide BucketOf;
  }

  lemma OneOfFive(b: nat, m: multiset<Page>, m0: multiset<Page>, m1: multiset<Page>, m2: multiset<Page>, m3: multiset<Page>, m4: multiset<Page>)
    requires b < BUCKETS
    ensures (Own(b, 0, m) + m0) + (Own(b, 1, m) + m1) + (Own(b, 2, m) + m2) + (Own(b, 3, m) + m3) + (Own(b, 4, m) + m4)
         == m + (m0 + m1 + m2 + m3 + m4)
  {
  }

  lemma JoinFive(a: seq<seq<Page>>)
    requires |a| == BUCKETS
    ensures Join(a, 0) == a[0] + (a[1] + (a[2] + (a[3] + a[4])))
  {
    assert Join(a, 5) == [];
    assert Join(a, 4) == a[4] + [] == a[4];
    assert Join(a, 3) == a[3] + a[4];
    assert Join(a, 2) == a[2] + (a[3] + a[4]);
    assert Join(a, 1) == a[1] + (a[2] + (a[3] + a[4]));
  }

  lemma OfferedAll(pages: seq<Page>)
    ensures multiset(Offered(pages)) == multiset(pages)
  {
    hide OfBucket;
    hide Reverse;
    hide Join;
    var a := Sorted(pages);
    JoinFive(a);
    forall b | 0 <= b < BUCKETS
      ensures multiset(a[b]) == multiset(OfBucket(pages, b))
    {
      ReverseKeeps(OfBucket(pages, b));
    }
    BucketsPartition(pages);
    assert multiset(Offered(pages))
        == multiset(a[0]) + (multiset(a[1]) + (multiset(a[2]) + (multiset(a[3]) + multiset(a[4]))));
  }

  ghost predicate ByBucket(s: seq<Page>) {
    forall i, j :: 0 <= i < j < |s| ==> BucketOf(s[i].possibility) <= BucketOf(s[j].possibility)
  }

  ghost predicate From(s: seq<Page>, b: nat) {
    forall i :: 0 <= i < |s| ==> BucketOf(s[i].possibility) >= b
  }

  lemma {:induction false} JoinOrdered(a: seq<seq<Page>>, i: nat)
    requires forall b: nat :: b < |a| ==> AllIn(a[b], b)
    ensures ByBucket(Join(a, i)) && From(Join(a, i), i)
    decreases |a| - i
  {
    hide BucketOf;
    if i < |a| {
      JoinOrdered(a, i + 1);
    }
  }

  lemma OfferedOrdered(pages: seq<Page>)
    ensures ByBucket(Offered(pages))
  {
    hide OfBucket;
    hide Reverse;
    hide AllIn;
    hide BucketOf;
    var a := Sorted(pages);
    forall b: nat | b < |a|
      ensures AllIn(a[b], b)
    {
      OfBucketAll(pages, b);
      ReverseAllIn(OfBucket(pages, b), b);
    }
    JoinOrdered(a, 0);
  }

  /**
   With a DRAM target: the cold pages are the first min(need, first page to stay) pages offered; together
   with the page that stopped the search and those left in the lists they are all pages, each once; none
   of them is likely enough to stay; the search stops at a page that is, when the need is met, or when no
   page is left; and a page that was not selected is at least as likely as one that was, unless both are
   in the same band.
   */
  lemma SelectionSound(pages: seq<Page>, t: int, need: nat)
    ensures var order := Offered(pages); var k := Min(need, FirstHot(order, t));
      var cold := Reverse(order[..k]); var hot := HotTaken(order, need, t); var left := order[k + |hot|..];
      && multiset(cold) + multiset(hot) + multiset(left) == multiset(pages)
      && |cold| == k <= need
      && (forall i :: 0 <= i < k ==> !Hot(order[i], t))
      && |hot| <= 1 && (hot != [] ==> Hot(hot[0], t) && |cold| < need)
      && (hot == [] ==> |cold| == need || left == [])
      && (forall i, j :: 0 <= i < k <= j < |order| ==>
            order[i].possibility <= order[j].possibility || SameBand(order[i].possibility, order[j].possibility))
  {
    hide Offered;
    hide FirstHot;
    hide Reverse;
    hide Hot;
    hide BucketOf;
    var order := Offered(pages);
    var k := Min(need, FirstHot(order, t));
    var hot := HotTaken(order, need, t);
    OfferedAll(pages);
    OfferedOrdered(pages);
    hide SameBand;
    hide ByBucket;
    KeptTogether(order, k, hot);
    forall i, j | 0 <= i < k <= j < |order|
      ensures order[i].possibility <= order[j].possibility || SameBand(order[i].possibility, order[j].possibility)
    {
      BandOrder(order, i, j);
    }
  }

  lemma KeptTogether(order: seq<Page>, k: nat, hot: seq<Page>)
    requires k <= |order| && (hot == [] || (k < |order| && hot == [order[k]]))
    ensures multiset(Reverse(order[..k])) + multiset(hot) + multiset(order[k + |hot|..]) == multiset(order)
  {
    hide Reverse;
    ReverseKeeps(order[..k]);
    assert order == order[..k] + hot + order[k + |hot|..];
  }

  lemma BandOrder(s: seq<Page>, i: nat, j: nat)
    requires ByBucket(s) && i < j < |s|
    ensures s[i].possibility <= s[j].possibility || SameBand(s[i].possibility, s[j].possibility)
  {
    hide SameBand;
    hide BucketOf;
    Bands(s[j].possibility, s[i].possibility, 0);
    Bands(s[i].possibility, s[j].possibility, 0);
  }

  /** The target is the given share of the whole, counted in full hundreds: every percent adds the same, and it
      is less than one hundred for every percent below the exact share. */
  lemma TargetIsShare(rss: nat, swap: nat, percent: nat)
    ensures Target(rss, swap, percent) == percent * Target(rss, swap, 1)
    ensures 100 * Target(rss, swap, percent) <= (rss + swap) * percent
    ensures percent > 0 ==> (rss + swap) * percent < 100 * Target(rss, swap, percent) + 100 * percent
  {
    var q, r := (rss + swap) / 100, (rss + swap) % 100;
    assert rss + swap == 100 * q + r && Target(rss, swap, percent) == q * percent;
    Hundredths(q, r, percent);
  }

  lemma {:induction false} Hundredths(q: nat, r: nat, percent: nat)
    requires r < 100
    ensures (100 * q + r) * percent == 100 * (q * percent) + r * percent
    ensures 0 <= r * percent && (percent > 0 ==> r * percent < 100 * percent)
  {
    if percent > 0 {
      Hundredths(q, r, percent - 1);
    }
  }

  /** Swapping out no more pages than needed never takes resident memory below the target; when the
      target is above it already, no page is needed. */
  lemma TargetRespected(rss: nat, swap: nat, percent: nat, pagesize: nat, k: nat)
    requires pagesize > 0 && k <= Need(rss, swap, percent, pagesize)
    ensures Target(rss, swap, percent) <= rss ==> rss * 1024 - k * pagesize >= Target(rss, swap, percent) * 1024
    ensures Target(rss, swap, percent) > rss ==> k == 0
    ensures Target(rss, swap, percent) <= rss ==>
      rss * 1024 - (Need(rss, swap, percent, pagesize) + 1) * pagesize < Target(rss, swap, percent) * 1024
  {
    hide Target;
    var target := Target(rss, swap, percent);
    if target <= rss {
      Pieces((rss - target) * 1024, pagesize, k);
    }
  }

  lemma Pieces(bytes: nat, size: nat, k: nat)
    requires size > 0 && k <= bytes / size
    ensures k * size <= bytes < (bytes / size + 1) * size
  {
    var q := bytes / size;
    assert bytes == q * size + bytes % size;
    assert k * size <= q * size;
  }
}
