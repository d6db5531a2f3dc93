/**
 Handing pages over to the userswap library: memRouter sends them in batches of at most 512 entries, and
 the library joins adjacent pages of a batch to ranges before it swaps them out.
 */
module Userswap {
  /** `struct vma_addr`. */
  datatype Range = Range(start: nat, len: nat)

  const MAX_VMA_NUM := 512
  const SSIZE_MAX := 0x7fff_ffff_ffff_ffff
  const INT_MAX := 0x7fff_ffff

  function Min(a: nat, b: nat): nat {
    if a < b then a else b
  }

  // ----- batches

  function Batches(pages: seq<Range>): (bs: seq<seq<Range>>)
    decreases |pages|
  {
    if pages == [] then []
    else
      var n := Min(|pages|, MAX_VMA_NUM);
      [pages[..n]] + Batches(pages[n..])
  }

  function Joined(bs: seq<seq<Range>>): seq<Range> {
    if bs == [] then [] else bs[0] + Joined(bs[1..])
  }

  lemma {:induction false} BatchesJoin(pages: seq<Range>)
    ensures Joined(Batches(pages)) == pages
    ensures forall i :: 0 <= i < |Batches(pages)| ==> 0 < |Batches(pages)[i]| <= MAX_VMA_NUM
    decreases |pages|
  {
    if pages != [] {
      BatchesJoin(pages[Min(|pages|, MAX_VMA_NUM)..]);
    }
  }

  /**
   `send_to_userswap`. The first `connects` connections succeed and the next one fails; `replies` says for
   each batch whether its receiver answered with success. Every batch up to a failed connection is sent,
   whatever the answers; the call succeeds exactly when all were sent and all answered.
   */
  method SendToUserswap(pages: seq<Range>, connects: nat, replies: seq<bool>) returns (sent: seq<seq<Range>>, ret: int)
    requires |pages| <= INT_MAX && |replies| == |Batches(pages)|
    ensures sent == Batches(pages)[..Min(connects, |Batches(pages)|)]
    ensures ret == 0 || ret == -1
    ensures ret == 0 <==> connects >= |Batches(pages)| && forall i :: 0 <= i < |replies| ==> replies[i]
  {
    hide Batches;
    hide AllTrue;
    ghost var all := Batches(pages);
    var buffer := new Range[MAX_VMA_NUM](_ => Range(0, 0));
    sent, ret := [], 0;
    var rest: nat := |pages|;
    SendingStart(pages);
    NoReplies(replies);
    while rest > 0
      invariant rest <= |pages| && |sent| <= connects && Sending(pages, sent, rest)
      invariant fresh(buffer) && buffer.Length == MAX_VMA_NUM
      invariant |sent| <= |replies| && ret == if AllTrue(replies, |sent|) then 0 else -1
    {
      SendingStep(pages, sent, rest);
      if |sent| == connects {
        ret := -1;
        return;
      }
      var size := Min(rest, MAX_VMA_NUM);
      Copy(pages, |pages| - rest, size, buffer);
      OneMoreReply(replies, |sent|);
      if !replies[|sent|] {
        ret := -1;
      }
      sent := sent + [buffer[..size]];
      rest := rest - size;
    }
    SendingEnd(pages, sent);
    EveryReply(replies);
  }

  /** `sent` went out, and the last `rest` pages are still to go. */
  ghost predicate Sending(pages: seq<Range>, sent: seq<seq<Range>>, rest: nat)
    requires rest <= |pages|
  {
    Batches(pages) == sent + Batches(pages[|pages| - rest..])
  }

  lemma SendingStart(pages: seq<Range>)
    ensures Sending(pages, [], |pages|)
  {
    hide Batches;
    assert pages[|pages| - |pages|..] == pages;
  }

  lemma SendingStep(pages: seq<Range>, sent: seq<seq<Range>>, rest: nat)
    requires 0 < rest <= |pages| && Sending(pages, sent, rest)
    ensures var n := Min(rest, MAX_VMA_NUM); var at := |pages| - rest;
      && |sent| < |Batches(pages)| && Batches(pages)[..|sent|] == sent
      && Sending(pages, sent + [pages[at..at + n]], rest - n)
  {
    hide Batches;
    var n, at := Min(rest, MAX_VMA_NUM), |pages| - rest;
    var left := pages[at..];
    BatchesStep(left);
    assert left[..n] == pages[at..at + n] && left[n..] == pages[at + n..];
  }

  lemma SendingEnd(pages: seq<Range>, sent: seq<seq<Range>>)
    requires Sending(pages, sent, 0)
    ensures sent == Batches(pages) == Batches(pages)[..|sent|]
  {
    hide Batches;
    assert pages[|pages| - 0..] == [];
    NoBatches();
    assert sent + [] == sent;
  }

  lemma NoReplies(replies: seq<bool>)
    ensures AllTrue(replies, 0)
  {
  }

  lemma OneMoreReply(replies: seq<bool>, n: nat)
    requires n < |replies|
    ensures AllTrue(replies, n + 1) <==> AllTrue(replies, n) && replies[n]
  {
  }

  lemma EveryReply(replies: seq<bool>)
    ensures AllTrue(replies, |replies|) <==> forall i :: 0 <= i < |replies| ==> replies[i]
  {
  }

  predicate AllTrue(replies: seq<bool>, n: nat)
    requires n <= |replies|
  {
    forall i :: 0 <= i < n ==> replies[i]
  }

  lemma BatchesStep(left: seq<Range>)
    requires left != []
    ensures var n := Min(|left|, MAX_VMA_NUM); Batches(left) == [left[..n]] + Batches(left[n..])
  {
  }

  lemma NoBatches()
    ensures Batches([]) == []
  {
  }

  method Copy(pages: seq<Range>, from: nat, size: nat, buffer: array<Range>)
    requires from + size <= |pages| && size <= buffer.Length
    modifies buffer
    ensures buffer[..size] == pages[from..from + size]
  {
    for i := 0 to size
      invariant buffer[..i] == pages[from..from + i]
    {
      buffer[i] := pages[from + i];
      assert buffer[..i + 1] == buffer[..i] + [pages[from + i]];
    }
  }

  // ----- merging

  predicate Skipped(r: Range) {
    r.len == 0 || r.len > SSIZE_MAX
  }

  /** How many entries from the first on follow each other at page distance. */
  function RunLen(src: seq<Range>, size: nat): (n: nat)
    requires src != []
    ensures 1 <= n <= |src|
  {
    if |src| > 1 && src[0].start + size == src[1].start then 1 + RunLen(src[1..], size) else 1
  }

  function Merged(src: seq<Range>, size: nat): (dst: seq<Range>)
    ensures |dst| <= |src|
    decreases |src|
  {
    if src == [] then []
    else if Skipped(src[0]) then Merged(src[1..], size)
    else if src[0].len == size then
      var n := RunLen(src, size);
      [Range(src[0].start, n * size)] + Merged(src[n..], size)
    else [src[0]] + Merged(src[1..], size)
  }

  /** `vma_merge`. */
  method VmaMerge(src: seq<Range>, size: nat, dst: array<Range>) returns (index: nat)
    requires dst.Length == MAX_VMA_NUM
    modifies dst
    ensures index <= MAX_VMA_NUM && dst[..index] == Merged(src[..Min(|src|, MAX_VMA_NUM)], size)
  {
    hide Merged;
    hide Skipped;
    hide RunLen;
    var nums := Min(|src|, MAX_VMA_NUM);
    var use := src[..nums];
    index := 0;
    var i := 0;
    ghost var done: seq<Range> := [];
    assert use[0..] == use;
    while i < nums
      invariant 0 <= index == |done| <= i <= nums && dst[..index] == done
      invariant Merged(use, size) == done + Merged(use[i..], size)
    {
      MergedStep(use, i, size);
      if src[i].len == 0 || src[i].len > SSIZE_MAX {
        i := i + 1;
        continue;
      }
      if src[i].len == size {
        var j, len := FollowRun(use, i, size);
        dst[index] := Range(src[i].start, len);
        i := j;
      } else {
        dst[index] := src[i];
        i := i + 1;
      }
      done := done + [dst[index]];
      assert dst[..index + 1] == done;
      index := index + 1;
    }
    MergedEnd(use, size);
    assert done + [] == done;
  }

  /** The inner loop of `vma_merge`: the entries from `i` on that continue each other, and their length. */
  method FollowRun(use: seq<Range>, i: nat, size: nat) returns (j: nat, len: nat)
    requires i < |use|
    ensures j == i + RunLen(use[i..], size) <= |use| && len == (j - i) * size
  {
    hide RunLen;
    j, len := i + 1, size;
    while j < |use| && use[j - 1].start + size == use[j].start
      invariant i < j <= |use| && len == (j - i) * size
      invariant RunLen(use[i..], size) == (j - 1 - i) + RunLen(use[j - 1..], size)
    {
      RunStep(use, j - 1, size);
      j := j + 1;
      len := len + size;
      OneMorePage(j - i, size);
    }
    RunStep(use, j - 1, size);
  }

  lemma OneMorePage(n: nat, size: nat)
    requires n > 0
    ensures (n - 1) * size + size == n * size
  {
  }

  lemma MergedStep(use: seq<Range>, i: nat, size: nat)
    requires i < |use|
    ensures var n := RunLen(use[i..], size);
      && i + n <= |use|
      && Merged(use[i..], size)
         == if Skipped(use[i]) then Merged(use[i + 1..], size)
            else if use[i].len == size then [Range(use[i].start, n * size)] + Merged(use[i + n..], size)
            else [use[i]] + Merged(use[i + 1..], size)
    ensures Skipped(use[i]) <==> use[i].len == 0 || use[i].len > SSIZE_MAX
  {
    var n := RunLen(use[i..], size);
    assert use[i..][n..] == use[i + n..] && use[i..][1..] == use[i + 1..];
  }

  lemma MergedEnd(use: seq<Range>, size: nat)
    ensures Merged(use[|use|..], size) == []
  {
  }

  lemma RunStep(use: seq<Range>, k: nat, size: nat)
    requires k < |use|
    ensures RunLen(use[k..], size)
         == if k + 1 < |use| && use[k].start + size == use[k + 1].start then 1 + RunLen(use[k + 1..], size) else 1
  {
    assert use[k..][1..] == use[k + 1..];
  }

  // ----- what the ranges cover

  /** The `n` pages from `start` on. */
  function PagesFrom(start: nat, n: nat, size: nat): seq<nat>
    decreases n
  {
    if n == 0 then [] else [start] + PagesFrom(start + size, n - 1, size)
  }

  function PagesOf(r: Range, size: nat): seq<nat>
    requires size > 0
  {
    PagesFrom(r.start, r.len / size, size)
  }

  function Expanded(rs: seq<Range>, size: nat): seq<nat>
    requires size > 0
  {
    if rs == [] then [] else PagesOf(rs[0], size) + Expanded(rs[1..], size)
  }

  /** The entries that are meant to be swapped out. */
  function Wanted(src: seq<Range>): seq<Range> {
    if src == [] then [] else (if Skipped(src[0]) then [] else [src[0]]) + Wanted(src[1..])
  }

  predicate SinglePage(r: Range, size: nat) {
    r.len == size && !Skipped(r)
  }

  /** An entry that directly follows a single page is itself a single page. */
  ghost predicate Mergeable(src: seq<Range>, size: nat) {
    forall i, j :: 0 <= i && j == i + 1 < |src| && src[i].len == size && src[i].start + size == src[j].start
      ==> src[j].len == size
  }

  lemma {:induction false} RunIsPages(src: seq<Range>, size: nat)
    requires src != [] && 0 < size <= SSIZE_MAX && src[0].len == size && Mergeable(src, size)
    ensures var n := RunLen(src, size);
      && Expanded(Wanted(src), size) == PagesFrom(src[0].start, n, size) + Expanded(Wanted(src[n..]), size)
      && Mergeable(src[n..], size)
    decreases |src|
  {
    hide Expanded;
    hide Mergeable;
    var n := RunLen(src, size);
    SizeOnce(src[0].start, size);
    ExpandedHead(src[0], Wanted(src[1..]), size);
    TailMergeable(src, 1, size);
    if n > 1 {
      NextIsSingle(src, size);
      RunIsPages(src[1..], size);
      assert src[1..][n - 1..] == src[n..];
    }
  }

  lemma NextIsSingle(src: seq<Range>, size: nat)
    requires |src| > 1 && Mergeable(src, size) && src[0].len == size && src[0].start + size == src[1].start
    ensures src[1].len == size
  {
    var j := 1;
    assert src[j].len == size;
  }

  lemma TailMergeable(src: seq<Range>, k: nat, size: nat)
    requires Mergeable(src, size) && k <= |src|
    ensures Mergeable(src[k..], size)
  {
    var t := src[k..];
    forall i, j | 0 <= i && j == i + 1 < |t| && t[i].len == size && t[i].start + size == t[j].start
      ensures t[j].len == size
    {
      assert t[i] == src[k + i] && t[j] == src[k + j];
    }
  }

  lemma SizeOnce(start: nat, size: nat)
    requires size > 0
    ensures PagesOf(Range(start, size), size) == [start]
  {
    assert size / size == 1;
    assert PagesFrom(start + size, 0, size) == [];
  }

  lemma Quotient(n: nat, size: nat)
    requires size > 0
    ensures n * size / size == n
  {
    var q := n * size / size;
    assert (n - q) * size == n * size % size;
    Beyond(n - q, size);
  }

  lemma Beyond(k: int, size: nat)
    ensures k >= 1 ==> k * size >= size
    ensures k <= -1 ==> k * size + size <= 0
  {
    if k >= 1 {
      assert k * size == size + (k - 1) * size;
    } else if k <= -1 {
      assert (-k) * size == size + (-k - 1) * size;
    }
  }

  /** Merging does not change the pages: the ranges, taken apart again, are the pages asked for, in order. */
  lemma {:induction false} MergeKeepsPages(src: seq<Range>, size: nat)
    requires 0 < size <= SSIZE_MAX && Mergeable(src, size)
    ensures Expanded(Merged(src, size), size) == Expanded(Wanted(src), size)
    decreases |src|
  {
    hide Expanded;
    hide PagesFrom;
    hide Mergeable;
    hide RunLen;
    if src != [] {
      if src[0].len == size {
        var n := RunLen(src, size);
        RunIsPages(src, size);
        MergeKeepsPages(src[n..], size);
        Quotient(n, size);
        ExpandedHead(Range(src[0].start, n * size), Merged(src[n..], size), size);
      } else {
        TailMergeable(src, 1, size);
        MergeKeepsPages(src[1..], size);
        if Skipped(src[0]) {
          assert Wanted(src) == [] + Wanted(src[1..]) == Wanted(src[1..]);
        } else {
          ExpandedHead(src[0], Merged(src[1..], size), size);
          ExpandedHead(src[0], Wanted(src[1..]), size);
        }
      }
    }
  }

  lemma ExpandedHead(r: Range, rs: seq<Range>, size: nat)
    requires size > 0
    ensures Expanded([r] + rs, size) == PagesOf(r, size) + Expanded(rs, size)
  {
    assert ([r] + rs)[1..] == rs;
  }

  /** A longer entry right behind a single page is cut to one page: two pages of it are lost here. */
  lemma LongerEntryIsCut(size: nat)
    requires 0 < size && 3 * size <= SSIZE_MAX
    ensures var src := [Range(0, size), Range(size, 3 * size)];
      Merged(src, size) == [Range(0, 2 * size)] && |Expanded(Wanted(src), size)| == 4
  {
    var src := [Range(0, size), Range(size, 3 * size)];
    assert src[1..] == [Range(size, 3 * size)];
    assert RunLen(src[1..], size) == 1;
    assert RunLen(src, size) == 2;
    assert src[2..] == [];
    assert Wanted(src[1..]) == [src[1]] by { assert src[1..][1..] == []; }
    assert Wanted(src) == src;
    SizeOnce(0, size);
    Quotient(3, size);
    PagesLen(size, 3, size);
    assert Expanded(src[1..], size) == PagesOf(src[1], size) + [] by { assert src[1..][1..] == []; }
  }

  lemma {:induction false} PagesLen(start: nat, n: nat, size: nat)
    ensures |PagesFrom(start, n, size)| == n
    decreases n
  {
    if n > 0 {
      PagesLen(start + size, n - 1, size);
    }
  }

  // ----- exactly when the pages are kept

  /** Entries of whole pages, all meant to be swapped out. */
  ghost predicate WholeEntries(src: seq<Range>, size: nat)
    requires size > 0
  {
    forall i :: 0 <= i < |src| ==> !Skipped(src[i]) && src[i].len % size == 0
  }

  /** Number of pages of the entries. */
  ghost function Count(rs: seq<Range>, size: nat): nat
    requires size > 0
  {
    if rs == [] then 0 else rs[0].len / size + Count(rs[1..], size)
  }

  lemma {:induction false} ExpandedLen(rs: seq<Range>, size: nat)
    requires size > 0
    ensures |Expanded(rs, size)| == Count(rs, size)
  {
    if rs != [] {
      PagesLen(rs[0].start, rs[0].len / size, size);
      ExpandedLen(rs[1..], size);
    }
  }

  lemma {:induction false} AllWanted(src: seq<Range>, size: nat)
    requires size > 0 && WholeEntries(src, size)
    ensures Wanted(src) == src
  {
    if src != [] {
      assert WholeEntries(src[1..], size);
      AllWanted(src[1..], size);
    }
  }

  lemma OnePageOrMore(len: nat, size: nat)
    requires size > 0 && 0 < len && len % size == 0
    ensures len / size >= 1 && (len / size == 1 <==> len == size)
  {
    var q := len / size;
    assert len == q * size;
    Beyond(q - 1, size);
  }

  /** The entries of a run count at least one page each, and one page each only when all are single. */
  lemma {:induction false} RunCount(src: seq<Range>, size: nat)
    requires src != [] && size > 0 && WholeEntries(src, size) && src[0].len == size
    ensures var n := RunLen(src, size);
      && Count(src, size) >= n + Count(src[n..], size)
      && (Count(src, size) == n + Count(src[n..], size) && Mergeable(src[n..], size) ==> Mergeable(src, size))
    decreases |src|
  {
    RunCountFrom(src, size);
    var n := RunLen(src, size);
    if Count(src, size) == n + Count(src[n..], size) && Mergeable(src[n..], size) {
      RunEnds(src, size);
      forall i, j | 0 <= i && j == i + 1 < |src| && src[i].len == size && src[i].start + size == src[j].start
        ensures src[j].len == size
      {
        if j >= n {
          RunBreaks(src, size);
          assert i >= n;
          assert src[n..][i - n] == src[i] && src[n..][j - n] == src[j];
        }
      }
    }
  }

  /** Inside a run every entry follows the one before; at its end none does. */
  lemma {:induction false} RunBreaks(src: seq<Range>, size: nat)
    requires src != []
    ensures var n := RunLen(src, size); n < |src| ==> src[n - 1].start + size != src[n].start
    decreases |src|
  {
    if RunLen(src, size) > 1 {
      RunBreaks(src[1..], size);
    }
  }

  lemma {:induction false} RunCountFrom(src: seq<Range>, size: nat)
    requires src != [] && size > 0 && WholeEntries(src, size)
    ensures var n := RunLen(src, size);
      && Count(src, size) >= n + Count(src[n..], size)
      && (Count(src, size) == n + Count(src[n..], size) ==> forall i :: 0 <= i < n ==> src[i].len == size)
    decreases |src|
  {
    var n := RunLen(src, size);
    OnePageOrMore(src[0].len, size);
    if n > 1 {
      assert WholeEntries(src[1..], size);
      RunCountFrom(src[1..], size);
      assert src[1..][n - 1..] == src[n..];
      assert forall i :: 1 <= i < n ==> src[i] == src[1..][i - 1];
    }
  }

  lemma {:induction false} MergeCount(src: seq<Range>, size: nat)
    requires 0 < size && WholeEntries(src, size)
    ensures Count(Merged(src, size), size) <= Count(src, size)
    ensures Count(Merged(src, size), size) == Count(src, size) ==> Mergeable(src, size)
    decreases |src|
  {
    hide RunLen;
    if src != [] {
      assert !Skipped(src[0]);
      if src[0].len == size {
        var n := RunLen(src, size);
        assert WholeEntries(src[n..], size);
        MergeCount(src[n..], size);
        RunCount(src, size);
        Quotient(n, size);
        assert Merged(src, size)[1..] == Merged(src[n..], size);
      } else {
        assert WholeEntries(src[1..], size);
        MergeCount(src[1..], size);
        assert Merged(src, size)[1..] == Merged(src[1..], size);
        Prepended(src, size);
      }
    }
  }

  lemma Prepended(src: seq<Range>, size: nat)
    requires src != [] && src[0].len != size
    ensures Mergeable(src[1..], size) ==> Mergeable(src, size)
  {
    if Mergeable(src[1..], size) {
      forall i, j | 0 <= i && j == i + 1 < |src| && src[i].len == size && src[i].start + size == src[j].start
        ensures src[j].len == size
      {
        assert src[1..][i - 1] == src[i] && src[1..][j - 1] == src[j];
      }
    }
  }

  /** For entries of whole pages the merge keeps the pages exactly when every entry that directly follows
      a single page is itself a single page. */
  lemma MergeExact(src: seq<Range>, size: nat)
    requires 0 < size <= SSIZE_MAX && WholeEntries(src, size)
    ensures Expanded(Merged(src, size), size) == Expanded(Wanted(src), size) <==> Mergeable(src, size)
  {
    hide Expanded;
    hide Merged;
    if Mergeable(src, size) {
      MergeKeepsPages(src, size);
    }
    AllWanted(src, size);
    ExpandedLen(Merged(src, size), size);
    ExpandedLen(src, size);
    MergeCount(src, size);
  }

  /** Why whole pages are asked for: an absorbed entry with part of a second page loses that part, which
      counts as no page on either side. */
  lemma PartPageGoesUnnoticed(size: nat)
    requires 2 <= size && 2 * size <= SSIZE_MAX
    ensures var src := [Range(0, size), Range(size, size + 1)];
      && !Mergeable(src, size)
      && Expanded(Merged(src, size), size) == Expanded(Wanted(src), size)
  {
    hide Expanded;
    var src := [Range(0, size), Range(size, size + 1)];
    var j := 1;
    assert src[0].len == size && src[0].start + size == src[j].start && src[j].len != size;
    assert src[1..] == [src[1]] && src[2..] == [] && src[1..][1..] == [];
    assert RunLen(src[1..], size) == 1;
    assert RunLen(src, size) == 2;
    assert Merged(src, size) == [Range(0, 2 * size)] + [];
    assert Wanted(src[1..]) == [src[1]] + [];
    assert Wanted(src) == [src[0]] + [src[1]];
    Quotient(2, size);
    OnePart(size);
    ExpandedHead(Range(0, 2 * size), [], size);
    ExpandedHead(src[0], [src[1]], size);
    ExpandedHead(src[1], [], size);
    SizeOnce(0, size);
    TwoPages(size);
    Neither(size);
    assert [src[1]] + [] == [src[1]];
    assert Expanded([src[1]], size) == [size] + [];
    assert Expanded([src[0]] + [src[1]], size) == [0] + ([size] + []);
    assert Expanded([Range(0, 2 * size)] + [], size) == ([0] + [size]) + [];
  }

  lemma OnePart(size: nat)
    requires 2 <= size
    ensures PagesOf(Range(size, size + 1), size) == [size]
  {
    assert (size + 1) / size == 1;
    assert PagesFrom(size + size, 0, size) == [];
  }

  lemma TwoPages(size: nat)
    ensures PagesFrom(0, 2, size) == [0] + [size]
  {
    assert PagesFrom(size + size, 0, size) == [];
    assert PagesFrom(size, 1, size) == [size];
  }

  // ----- single pages

  ghost predicate AllSingle(src: seq<Range>, size: nat) {
    forall i :: 0 <= i < |src| ==> SinglePage(src[i], size)
  }

  /** No range is directly followed by its own continuation. */
  ghost predicate Separated(rs: seq<Range>) {
    forall i, j :: 0 <= i && j == i + 1 < |rs| ==> rs[i].start + rs[i].len != rs[j].start
  }

  lemma {:induction false} RunEnds(src: seq<Range>, size: nat)
    requires src != []
    ensures var n := RunLen(src, size); n < |src| ==> src[0].start + n * size != src[n].start
    decreases |src|
  {
    var n := RunLen(src, size);
    if n > 1 {
      RunEnds(src[1..], size);
      OneMorePage(n, size);
    }
  }

  lemma FirstMerged(src: seq<Range>, size: nat)
    requires src != [] && SinglePage(src[0], size)
    ensures Merged(src, size) != [] && Merged(src, size)[0].start == src[0].start
  {
  }

  /** For single pages the merge is complete: no two neighbouring ranges could be joined. */
  lemma {:induction false} MergeIsComplete(src: seq<Range>, size: nat)
    requires AllSingle(src, size)
    ensures Separated(Merged(src, size))
    decreases |src|
  {
    hide RunLen;
    if src != [] {
      var n := RunLen(src, size);
      assert SinglePage(src[0], size);
      MergeIsComplete(src[n..], size);
      RunEnds(src, size);
      var rest := Merged(src[n..], size);
      if n < |src| {
        assert SinglePage(src[n..][0], size);
        FirstMerged(src[n..], size);
      }
      Prefixed(Range(src[0].start, n * size), rest);
    }
  }

  lemma Prefixed(r: Range, rest: seq<Range>)
    requires Separated(rest) && (rest != [] ==> r.start + r.len != rest[0].start)
    ensures Separated([r] + rest)
  {
    var all := [r] + rest;
    forall i, j | 0 <= i && j == i + 1 < |all|
      ensures all[i].start + all[i].len != all[j].start
    {
      if i > 0 {
        assert all[i] == rest[i - 1] && all[j] == rest[j - 1];
      }
    }
  }

  function Starts(pages: seq<Range>): seq<nat> {
    if pages == [] then [] else [pages[0].start] + Starts(pages[1..])
  }

  lemma {:induction false} SinglePages(src: seq<Range>, size: nat)
    requires size > 0 && AllSingle(src, size)
    ensures Expanded(Wanted(src), size) == Starts(src) && Mergeable(src, size)
    decreases |src|
  {
    if src != [] {
      assert SinglePage(src[0], size);
      SinglePages(src[1..], size);
      SizeOnce(src[0].start, size);
      ExpandedHead(src[0], Wanted(src[1..]), size);
    }
  }

  /** The ranges the library swaps out for a sequence of batches. */
  function MergedAll(bs: seq<seq<Range>>, size: nat): seq<Range> {
    if bs == [] then [] else Merged(bs[0], size) + MergedAll(bs[1..], size)
  }

  lemma {:induction false} StartsAppend(a: seq<Range>, b: seq<Range>)
    ensures Starts(a + b) == Starts(a) + Starts(b)
  {
    if a == [] {
      assert a + b == b;
    } else {
      assert (a + b)[1..] == a[1..] + b;
      StartsAppend(a[1..], b);
    }
  }

  lemma {:induction false} ExpandedAppend(a: seq<Range>, b: seq<Range>, size: nat)
    requires size > 0
    ensures Expanded(a + b, size) == Expanded(a, size) + Expanded(b, size)
  {
    hide PagesOf;
    if a == [] {
      assert a + b == b;
    } else {
      assert (a + b)[1..] == a[1..] + b;
      ExpandedAppend(a[1..], b, size);
    }
  }

  /**
   For a list of single pages: the batches sent, each merged and its ranges taken apart page by page, give
   exactly the pages of the list, in order.
   */
  lemma {:induction false} DeliveryExact(pages: seq<Range>, size: nat)
    requires 0 < size <= SSIZE_MAX && AllSingle(pages, size)
    ensures Expanded(MergedAll(Batches(pages), size), size) == Starts(pages)
    decreases |pages|
  {
    hide Expanded;
    hide Merged;
    hide Starts;
    if pages == [] {
      assert Expanded([], size) == Starts([]) by { Neither(size); }
    } else {
      var n := Min(|pages|, MAX_VMA_NUM);
      var head, rest := pages[..n], pages[n..];
      assert pages == head + rest && AllSingle(head, size) && AllSingle(rest, size);
      DeliveryExact(rest, size);
      SinglePages(head, size);
      MergeKeepsPages(head, size);
      var bs := Batches(pages);
      assert bs[0] == head && bs[1..] == Batches(rest);
      ExpandedAppend(Merged(head, size), MergedAll(bs[1..], size), size);
      StartsAppend(head, rest);
    }
  }

  lemma Neither(size: nat)
    requires size > 0
    ensures Expanded([], size) == [] && Starts([]) == []
  {
  }
}
