/**
 memRouter's threshold policy: of the pages that are on a NUMA node, keep the hottest ones up to a byte
 threshold and swap out the rest. The list is compacted in place, from the back.
 */
module ThresholdPolicy {
  import opened MemdcdProtocol

  /** `struct migrate_page`. */
  datatype Entry = Entry(page: Page, node: int)

  /** Where `move_pages` finds each address; negative when the page is on no node. */
  type Locator = nat -> int

  const U64 := 0x1_0000_0000_0000_0000

  ghost predicate Ascending(s: seq<Entry>) {
    forall i, j :: 0 <= i < j < |s| ==> s[i].page.visits <= s[j].page.visits
  }

  /** What `qsort` by visit count may leave: ties in any order. */
  ghost predicate SortOutcome(before: seq<Entry>, after: seq<Entry>) {
    Ascending(after) && multiset(after) == multiset(before)
  }

  function Total(s: seq<Entry>): nat {
    if s == [] then 0 else s[0].page.length + Total(s[1..])
  }

  function Placed(e: Entry, locate: Locator): Entry {
    e.(node := locate(e.page.addr))
  }

  /** The pages that are on a node, in list order, with their node filled in. */
  function Resident(s: seq<Entry>, locate: Locator): seq<Entry> {
    if s == [] then []
    else (if locate(s[0].page.addr) < 0 then [] else [Placed(s[0], locate)]) + Resident(s[1..], locate)
  }

  /** The longest tail of `rs` whose total is below the threshold. */
  function Kept(rs: seq<Entry>, threshold: nat): (k: seq<Entry>)
    ensures |k| <= |rs| && k == rs[|rs| - |k|..]
  {
    if rs == [] || Total(rs) < threshold then rs else Kept(rs[1..], threshold)
  }

  function Swapped(rs: seq<Entry>, threshold: nat): seq<Entry> {
    rs[..|rs| - |Kept(rs, threshold)|]
  }

  /** `Kept` is the longest hottest-first run: it stays below the threshold, and every longer tail of
      the list reaches it. */
  lemma {:induction false} KeptIsLongest(rs: seq<Entry>, threshold: nat, i: nat)
    requires i <= |rs|
    ensures Kept(rs, threshold) != [] ==> Total(Kept(rs, threshold)) < threshold
    ensures i < |rs| - |Kept(rs, threshold)| ==> Total(rs[i..]) >= threshold
  {
    if rs == [] || Total(rs) < threshold {
    } else if i == 0 {
      assert rs[0..] == rs;
      KeptIsLongest(rs[1..], threshold, 0);
    } else {
      KeptIsLongest(rs[1..], threshold, i - 1);
      assert rs[1..][i - 1..] == rs[i..];
    }
  }

  /** No tail that starts inside the first `n` entries is below the threshold. */
  ghost predicate Reached(rs: seq<Entry>, n: nat, threshold: nat)
    requires n <= |rs|
  {
    forall i :: 0 <= i < n ==> Total(rs[i..]) >= threshold
  }

  lemma SplitHeat(rs: seq<Entry>, threshold: nat)
    requires Ascending(rs)
    ensures var keep := Kept(rs, threshold); var swap := Swapped(rs, threshold);
      && rs == swap + keep && Ascending(swap)
      && forall i, j :: 0 <= i < |keep| && 0 <= j < |swap| ==> keep[i].page.visits >= swap[j].page.visits
  {
    hide Kept;
    hide Total;
    var keep, swap := Kept(rs, threshold), Swapped(rs, threshold);
    assert forall i :: 0 <= i < |keep| ==> keep[i] == rs[|swap| + i];
  }

  lemma {:induction false} ResidentFrom(s: seq<Entry>, locate: Locator)
    ensures forall e :: e in Resident(s, locate) <==> exists i :: 0 <= i < |s| && locate(s[i].page.addr) >= 0 && e == Placed(s[i], locate)
  {
    if s != [] {
      ResidentFrom(s[1..], locate);
      forall e | e in Resident(s, locate)
        ensures exists i :: 0 <= i < |s| && locate(s[i].page.addr) >= 0 && e == Placed(s[i], locate)
      {
        if e in Resident(s[1..], locate) {
          var i :| 0 <= i < |s[1..]| && locate(s[1..][i].page.addr) >= 0 && e == Placed(s[1..][i], locate);
          assert s[i + 1] == s[1..][i];
        } else {
          assert e == Placed(s[0], locate);
        }
      }
      forall i | 0 <= i < |s| && locate(s[i].page.addr) >= 0
        ensures Placed(s[i], locate) in Resident(s, locate)
      {
        if i > 0 {
          assert s[1..][i - 1] == s[i];
          assert Placed(s[1..][i - 1], locate) in Resident(s[1..], locate);
        }
      }
    }
  }

  lemma {:induction false} ResidentAscending(s: seq<Entry>, locate: Locator)
    requires Ascending(s)
    ensures Ascending(Resident(s, locate))
  {
    if s != [] {
      ResidentAscending(s[1..], locate);
      var rest := Resident(s[1..], locate);
      ResidentFrom(s[1..], locate);
      forall j | 0 <= j < |rest|
        ensures s[0].page.visits <= rest[j].page.visits
      {
        assert rest[j] in rest;
        var i :| 0 <= i < |s[1..]| && locate(s[1..][i].page.addr) >= 0 && rest[j] == Placed(s[1..][i], locate);
        assert s[i + 1] == s[1..][i];
      }
    }
  }

  lemma {:induction false} ResidentAppend(s: seq<Entry>, t: seq<Entry>, locate: Locator)
    ensures Resident(s + t, locate) == Resident(s, locate) + Resident(t, locate)
  {
    if s == [] {
      assert s + t == t;
    } else {
      var head := if locate(s[0].page.addr) < 0 then [] else [Placed(s[0], locate)];
      var a, b := Resident(s[1..], locate), Resident(t, locate);
      assert (s + t)[1..] == s[1..] + t && (s + t)[0] == s[0];
      ResidentAppend(s[1..], t, locate);
      assert head + (a + b) == (head + a) + b;
    }
  }

  /** Sorting does not change which pages are resident, nor how often. */
  lemma {:induction false} ResidentPermuted(s: seq<Entry>, t: seq<Entry>, locate: Locator)
    requires multiset(s) == multiset(t)
    ensures multiset(Resident(s, locate)) == multiset(Resident(t, locate))
    decreases |s|
  {
    if s == [] {
      assert |multiset(t)| == |t|;
    } else {
      assert s[0] in multiset(t);
      var j :| 0 <= j < |t| && t[j] == s[0];
      var a, b := t[..j], t[j + 1..];
      assert t == a + ([t[j]] + b);
      assert s == [s[0]] + s[1..];
      assert multiset(s[1..]) == multiset(s) - multiset{s[0]};
      assert multiset(a + b) == multiset(t) - multiset{t[j]};
      ResidentPermuted(s[1..], a + b, locate);
      ResidentAppend(a, b, locate);
      ResidentAppend(a, [t[j]] + b, locate);
      ResidentAppend([t[j]], b, locate);
      ResidentAppend([s[0]], s[1..], locate);
    }
  }

  lemma {:induction false} TotalAppend(s: seq<Entry>, t: seq<Entry>)
    ensures Total(s + t) == Total(s) + Total(t)
  {
    if s == [] {
      assert s + t == t;
    } else {
      assert (s + t)[1..] == s[1..] + t;
      TotalAppend(s[1..], t);
    }
  }

  /**
   What the policy promises of a sorted list: the resident pages are split in two, each once; the kept
   ones stay below the threshold and every longer hottest-first run would reach it; every kept page is
   at least as hot as every swapped one; and the swapped ones come out in ascending visit count.
   */
  lemma PolicySound(before: seq<Entry>, sorted: seq<Entry>, locate: Locator, threshold: nat)
    requires SortOutcome(before, sorted)
    ensures var rs := Resident(sorted, locate); var keep := Kept(rs, threshold); var swap := Swapped(rs, threshold);
      && multiset(swap) + multiset(keep) == multiset(Resident(before, locate))
      && (keep != [] ==> Total(keep) < threshold)
      && Reached(rs, |swap|, threshold)
      && (forall i, j :: 0 <= i < |keep| && 0 <= j < |swap| ==> keep[i].page.visits >= swap[j].page.visits)
      && Ascending(swap)
  {
    hide Resident;
    hide Kept;
    hide Total;
    hide Ascending;
    var rs := Resident(sorted, locate);
    SortedAscends(before, sorted);
    ResidentPermuted(sorted, before, locate);
    ResidentAscending(sorted, locate);
    SplitHeat(rs, threshold);
    KeptIsLongest(rs, threshold, 0);
    forall i | 0 <= i < |Swapped(rs, threshold)|
      ensures Total(rs[i..]) >= threshold
    {
      KeptIsLongest(rs, threshold, i);
    }
  }

  lemma SortedAscends(before: seq<Entry>, sorted: seq<Entry>)
    requires SortOutcome(before, sorted)
    ensures Ascending(sorted) && multiset(sorted) == multiset(before)
  {
  }

  /** One resident page in front of others. */
  lemma SwappedMore(e: Entry, rs: seq<Entry>, threshold: nat)
    ensures var more := [e] + rs;
      && Total(more) == e.page.length + Total(rs)
      && (Total(more) < threshold ==> Swapped(more, threshold) == [] == Swapped(rs, threshold))
      && (Total(more) >= threshold ==> Swapped(more, threshold) == [e] + Swapped(rs, threshold))
  {
    var more := [e] + rs;
    assert more[1..] == rs;
    if Total(more) >= threshold {
      var k := |Kept(rs, threshold)|;
      assert Kept(more, threshold) == Kept(rs, threshold);
      assert more[..|more| - k] == [e] + rs[..|rs| - k];
    } else {
      assert Kept(rs, threshold) == rs;
    }
  }

  /** One entry further to the front. */
  lemma OneMore(s: seq<Entry>, i: nat, locate: Locator, threshold: nat)
    requires i < |s|
    ensures var old0 := Resident(s[i + 1..], locate); var rs := Resident(s[i..], locate);
      if locate(s[i].page.addr) < 0 then rs == old0
      else
        && rs == [Placed(s[i], locate)] + old0
        && Total(rs) == s[i].page.length + Total(old0)
        && (Total(rs) < threshold ==> Swapped(rs, threshold) == [] == Swapped(old0, threshold))
        && (Total(rs) >= threshold ==> Swapped(rs, threshold) == [Placed(s[i], locate)] + Swapped(old0, threshold))
  {
    hide Total;
    hide Kept;
    hide Swapped;
    assert s[i..][1..] == s[i + 1..] && s[i..][0] == s[i];
    SwappedMore(Placed(s[i], locate), Resident(s[i + 1..], locate), threshold);
  }

  /**
   `threshold_policy_parse`. `sorted` is what `qsort` leaves in the list, `located` whether `move_pages`
   succeeds and `locate` what it reports. A located list fails only when the resident pages do not fit
   a 64-bit sum.
   */
  method Parse(pages: array<Entry>, sorted: seq<Entry>, located: bool, locate: Locator, threshold: nat)
      returns (ret: int, swap: seq<Entry>)
    requires SortOutcome(pages[..], sorted)
    requires forall e :: e in sorted ==> e.page.length < U64
    modifies pages
    ensures ret == 0 || ret == -1
    ensures ret == 0 <==> located && Total(Resident(sorted, locate)) < U64
    ensures ret == 0 ==> swap == Swapped(Resident(sorted, locate), threshold)
  {
    var length := pages.Length;
    SortedLen(pages[..], sorted);
    Fill(pages, sorted);
    ret, swap := -1, [];
    if !located {
      return;
    }
    var ok, swapCount := Compact(pages, sorted, locate, threshold);
    if ok {
      ret, swap := 0, pages[length - swapCount..];
    }
  }

  lemma SortedLen(before: seq<Entry>, sorted: seq<Entry>)
    requires SortOutcome(before, sorted)
    ensures |sorted| == |before|
  {
    assert |multiset(sorted)| == |sorted| && |multiset(before)| == |before|;
  }

  method Fill(pages: array<Entry>, sorted: seq<Entry>)
    requires |sorted| == pages.Length
    modifies pages
    ensures pages[..] == sorted
  {
    forall i | 0 <= i < |sorted| {
      pages[i] := sorted[i];
    }
  }

  /** The loop of `threshold_policy_parse`: entries below `i` are still as sorted, the last `swapCount`
      are the swapped pages of those already read. */
  method Compact(pages: array<Entry>, ghost sorted: seq<Entry>, locate: Locator, threshold: nat) returns (ok: bool, swapCount: nat)
    requires pages[..] == sorted
    requires forall e :: e in sorted ==> e.page.length < U64
    modifies pages
    ensures ok <==> Total(Resident(sorted, locate)) < U64
    ensures ok ==> swapCount <= pages.Length && pages[pages.Length - swapCount..] == Swapped(Resident(sorted, locate), threshold)
  {
    hide Resident;
    hide Kept;
    hide Swapped;
    hide Total;
    var length := pages.Length;
    var i, sum := length, 0;
    swapCount := 0;
    Nothing(sorted, locate, threshold);
    while i > 0
      invariant 0 <= i <= length && 0 <= swapCount <= length - i
      invariant pages[..i] == sorted[..i]
      invariant sum == Total(Resident(sorted[i..], locate)) < U64
      invariant pages[length - swapCount..] == Swapped(Resident(sorted[i..], locate), threshold)
    {
      i := i - 1;
      OneMore(sorted, i, locate, threshold);
      assert pages[i] == pages[..i + 1][i] == sorted[i];
      assert sorted[i] in sorted;
      ghost var done := pages[length - swapCount..];
      var status := locate(pages[i].page.addr);
      pages[i] := pages[i].(node := status);
      assert pages[length - swapCount..] == done;
      assert pages[..i] == sorted[..i];
      if status < 0 {
        continue;
      }
      if (sum + pages[i].page.length) % U64 < sum {
        TooMuch(sorted, i, locate);
        return false, swapCount;
      }
      sum := sum + pages[i].page.length;
      if sum < threshold {
        assert done == [] by { assert swapCount == |done|; }
        continue;
      }
      swapCount := swapCount + 1;
      pages[length - swapCount] := pages[i];
      assert pages[length - swapCount..] == [Placed(sorted[i], locate)] + done;
      assert pages[..i] == sorted[..i];
    }
    assert sorted[0..] == sorted;
    ok := true;
  }

  lemma Nothing(s: seq<Entry>, locate: Locator, threshold: nat)
    ensures Total(Resident(s[|s|..], locate)) == 0 && Swapped(Resident(s[|s|..], locate), threshold) == []
  {
  }

  lemma TooMuch(s: seq<Entry>, i: nat, locate: Locator)
    requires i <= |s| && Total(Resident(s[i..], locate)) >= U64
    ensures Total(Resident(s, locate)) >= U64
  {
    assert s == s[..i] + s[i..];
    ResidentAppend(s[..i], s[i..], locate);
    TotalAppend(Resident(s[..i], locate), Resident(s[i..], locate));
  }
}
