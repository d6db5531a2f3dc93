/**
 Scanned pages as heap records linked through `next`, and the longest-prefix
 rule that decides how many pages of a list fit into a byte budget.
 */
module Pages {

  type PageSize = x: int | 0 < x witness 1

  /** One `struct page_refs`. Everything but the link is fixed once the scan is over;
      `size` is the byte size of the page's type. */
  class PageRef {
    const addr: nat
    const size: PageSize
    const count: nat
    var next: PageRef?

    constructor (addr: nat, size: PageSize, count: nat)
      ensures this.addr == addr && this.size == size && this.count == count && next == null
    {
      this.addr, this.size, this.count, next := addr, size, count, null;
    }
  }

  /** The value of every page's `next` field at one moment. */
  type Links = map<PageRef, PageRef?>

  /** Every node of `s` but the last points at its successor; the last link is not constrained. */
  ghost predicate Linked(nx: Links, s: seq<PageRef>) {
    forall i :: 0 <= i < |s| - 1 ==> s[i] in nx && nx[s[i]] == s[i + 1]
  }

  /** `head` is a null-terminated list whose nodes are exactly `s`. */
  ghost predicate Chain(nx: Links, head: PageRef?, s: seq<PageRef>) {
    && Linked(nx, s)
    && (s == [] ==> head == null)
    && (s != [] ==> head == s[0] && s[|s| - 1] in nx && nx[s[|s| - 1]] == null)
  }

  ghost predicate NoRepeat(s: seq<PageRef>) {
    forall i, j :: 0 <= i < j < |s| ==> s[i] != s[j]
  }

  function Total(s: seq<PageRef>): nat {
    if s == [] then 0 else s[0].size + Total(s[1..])
  }

  /** Number of leading pages that fit into `budget` bytes, counting one page at a time. */
  function FitLen(s: seq<PageRef>, budget: int): (k: nat)
    ensures k <= |s|
  {
    if s == [] || budget < s[0].size then 0 else 1 + FitLen(s[1..], budget - s[0].size)
  }

  /** The longest prefix of `s` whose bytes fit into `budget`. */
  function Fit(s: seq<PageRef>, budget: int): seq<PageRef> {
    s[..FitLen(s, budget)]
  }

  lemma {:induction false} TotalAppend(a: seq<PageRef>, b: seq<PageRef>)
    ensures Total(a + b) == Total(a) + Total(b)
  {
    if a == [] {
      assert a + b == b;
    } else {
      assert (a + b)[1..] == a[1..] + b;
      TotalAppend(a[1..], b);
    }
  }

  lemma TotalSplit(s: seq<PageRef>, k: nat)
    requires k <= |s|
    ensures Total(s) == Total(s[..k]) + Total(s[k..])
  {
    assert s == s[..k] + s[k..];
    TotalAppend(s[..k], s[k..]);
  }

  lemma TotalTake(s: seq<PageRef>, k: nat)
    requires k < |s|
    ensures Total(s[..k + 1]) == Total(s[..k]) + s[k].size
  {
    assert s[..k + 1] == s[..k] + [s[k]];
    TotalAppend(s[..k], [s[k]]);
  }

  /** `FitLen` is the longest prefix within the budget: it fits, and one page more does not. */
  lemma {:induction false} FitIsLongest(s: seq<PageRef>, budget: nat, k: nat)
    requires k <= |s|
    ensures Total(s[..k]) <= budget <==> k <= FitLen(s, budget)
  {
    if k == 0 {
    } else {
      assert s[..k][1..] == s[1..][..k - 1];
      if s[0].size <= budget {
        FitIsLongest(s[1..], budget - s[0].size, k - 1);
      }
    }
  }

  /** A prefix that fits and cannot be extended is the longest one. */
  lemma FitFound(s: seq<PageRef>, budget: nat, k: nat)
    requires k <= |s| && Total(s[..k]) <= budget
    requires k < |s| ==> budget < Total(s[..k]) + s[k].size
    ensures FitLen(s, budget) == k
  {
    FitIsLongest(s, budget, k);
    if k < |s| {
      TotalTake(s, k);
      FitIsLongest(s, budget, k + 1);
    }
  }

  lemma FitAll(s: seq<PageRef>, budget: nat)
    ensures FitLen(s, budget) == |s| <==> Total(s) <= budget
  {
    assert s[..|s|] == s;
    FitIsLongest(s, budget, |s|);
  }

  lemma FitNone(s: seq<PageRef>, budget: int)
    requires budget <= 0
    ensures FitLen(s, budget) == 0
  {
  }

  lemma FitWithin(s: seq<PageRef>, budget: nat)
    ensures Total(Fit(s, budget)) <= budget
    ensures FitLen(s, budget) < |s| ==> budget < Total(s)
  {
    FitIsLongest(s, budget, FitLen(s, budget));
    FitAll(s, budget);
  }

  /** A budget spent on a concatenation is spent on the first part, and what is left on the second. */
  lemma {:induction false} FitAppend(a: seq<PageRef>, b: seq<PageRef>, budget: int)
    ensures Total(a) <= budget ==> FitLen(a + b, budget) == |a| + FitLen(b, budget - Total(a))
    ensures budget < Total(a) ==> FitLen(a + b, budget) == FitLen(a, budget)
  {
    if a == [] {
      assert a + b == b;
    } else {
      assert (a + b)[1..] == a[1..] + b;
      FitAppend(a[1..], b, budget - a[0].size);
    }
  }

  /** The prefix taken from a concatenation, as the prefixes taken from its two parts. */
  lemma FitConcat(a: seq<PageRef>, b: seq<PageRef>, budget: nat)
    ensures Fit(a + b, budget) == Fit(a, budget) + Fit(b, budget - Total(a))
  {
    FitAppend(a, b, budget);
    FitAll(a, budget);
    if budget < Total(a) {
      FitNone(b, budget - Total(a));
    }
  }
}
