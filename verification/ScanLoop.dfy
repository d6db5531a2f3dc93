/**
 A whole scan of a process: its memory areas are read one after the other, as often as the project asks
 for, and everything reported goes into one list of page records.
 */
module ScanLoop {
  import opened VisitStats
  import opened ScanMerge
  import opened ScanDecode
  import opened ScanAccess

  ghost predicate AllLegible(bufs: seq<seq<Byte>>) {
    forall i :: 0 <= i < |bufs| ==> Legible(bufs[i], 0)
  }

  /** What the buffer read for one memory area means; nothing read is an empty buffer. */
  ghost function Decoded(ps: Pass, buf: seq<Byte>): Outcome
    requires Legible(buf, 0)
  {
    Meaning(ps, Items(buf, 0), 0)
  }

  ghost predicate AllWalked(ps: Pass, bufs: seq<seq<Byte>>)
    requires AllLegible(bufs)
  {
    forall i :: 0 <= i < |bufs| ==> Decoded(ps, bufs[i]).Walked?
  }

  /** The reports of the buffers, in order. */
  ghost function ReportsOf(ps: Pass, bufs: seq<seq<Byte>>): seq<Report>
    requires AllLegible(bufs)
  {
    if bufs == [] then []
    else ReportsOf(ps, bufs[..|bufs| - 1]) + Decoded(ps, bufs[|bufs| - 1]).reps
  }

  lemma OneMoreBuffer(ps: Pass, bufs: seq<seq<Byte>>, i: nat)
    requires AllLegible(bufs) && i < |bufs|
    ensures ReportsOf(ps, bufs[..i + 1]) == ReportsOf(ps, bufs[..i]) + Decoded(ps, bufs[i]).reps
  {
    hide Decoded;
    assert bufs[..i + 1][..i] == bufs[..i];
  }

  /** `get_page_refs`: one scan over all memory areas, with one cursor. */
  method GetPageRefs(list: PageList, ps: Pass, bufs: seq<seq<Byte>>) returns (ok: bool)
    requires AllLegible(bufs)
    modifies list
    ensures ok <==> AllWalked(ps, bufs)
    ensures ok ==> list.recs == CursorRun(list.f, old(list.recs), 0, ReportsOf(ps, bufs)).0
  {
    hide Meaning;
    hide Items;
    hide CursorRun;
    hide ReportsOf;
    var cursor := 0;
    ghost var recs := list.recs;
    ghost var done: seq<Report> := [];
    NoReports(list.f, recs, 0);
    NoBuffers(ps);
    for i := 0 to |bufs|
      invariant cursor <= |list.recs| && done == ReportsOf(ps, bufs[..i])
      invariant forall k :: 0 <= k < i ==> Decoded(ps, bufs[k]).Walked?
      invariant (list.recs, cursor) == CursorRun(list.f, recs, 0, done)
    {
      OneMoreBuffer(ps, bufs, i);
      CursorRunAppend(list.f, recs, 0, done, Decoded(ps, bufs[i]).reps);
      var end;
      ok, cursor, end := ParseVma(list, ps, bufs[i], cursor);
      if !ok {
        return;
      }
      done := done + Decoded(ps, bufs[i]).reps;
    }
    assert bufs[..|bufs|] == bufs;
    ok := true;
  }

  lemma NoBuffers(ps: Pass)
    ensures ReportsOf(ps, []) == []
  {
  }

  ghost predicate AllScansLegible(scans: seq<seq<seq<Byte>>>) {
    forall i :: 0 <= i < |scans| ==> AllLegible(scans[i])
  }

  ghost function AllReports(shift: Shift, scans: seq<seq<seq<Byte>>>): (r: seq<seq<Report>>)
    requires AllScansLegible(scans)
    ensures |r| == |scans| && forall i :: 0 <= i < |scans| ==> r[i] == ReportsOf(Pass(shift, i), scans[i])
  {
    seq(|scans|, i requires 0 <= i < |scans| => ReportsOf(Pass(shift, i), scans[i]))
  }

  /** `etmemd_do_scan`: all scans of a round; a failing one leaves no list. */
  method DoScan(list: PageList, shift: Shift, scans: seq<seq<seq<Byte>>>) returns (ok: bool)
    requires list.recs == [] && AllScansLegible(scans)
    modifies list
    ensures ok <==> forall i :: 0 <= i < |scans| ==> AllWalked(Pass(shift, i), scans[i])
    ensures list.recs == if ok then Scanned(list.f, AllReports(shift, scans)) else []
  {
    hide AllWalked;
    hide ReportsOf;
    hide CursorRun;
    ghost var all := AllReports(shift, scans);
    for i := 0 to |scans|
      invariant list.recs == Scanned(list.f, all[..i])
      invariant forall k :: 0 <= k < i ==> AllWalked(Pass(shift, k), scans[k])
    {
      assert all[..i + 1][..i] == all[..i];
      ok := GetPageRefs(list, Pass(shift, i), scans[i]);
      if !ok {
        list.recs := [];
        return;
      }
    }
    assert all[..|scans|] == all;
    ok := true;
  }

  // ----- scans that go upwards

  /** A buffer with reports begins by setting the address. */
  ghost predicate Addressed(items: seq<Item>) {
    items == [] || items[0].SetAddress?
  }

  /** Where the walk over the buffers has got to. */
  ghost function EndOf(ps: Pass, bufs: seq<seq<Byte>>): nat
    requires AllLegible(bufs)
  {
    if bufs == [] then 0
    else
      var o := Meaning(ps, Items(bufs[|bufs| - 1], 0), EndOf(ps, bufs[..|bufs| - 1]));
      if o.Walked? then o.end else 0
  }

  /** Every buffer starts by setting the address, and no buffer sets it back. */
  ghost predicate Upward(ps: Pass, bufs: seq<seq<Byte>>)
    requires AllLegible(bufs)
  {
    bufs == [] ||
      var items := Items(bufs[|bufs| - 1], 0);
      Upward(ps, bufs[..|bufs| - 1]) && Addressed(items) && Forward(ps, items, EndOf(ps, bufs[..|bufs| - 1]))
  }

  lemma {:induction false} WalkBounds(ps: Pass, items: seq<Item>, addr: nat)
    requires Forward(ps, items, addr)
    ensures var o := Meaning(ps, items, addr); o.Walked? ==> addr <= o.end && Within(o.reps, addr, o.end)
    decreases |items|
  {
    hide RunReports;
    if items != [] {
      if items[0].SetAddress? {
        WalkBounds(ps, items[1..], items[0].addr);
      } else {
        var kind, nr := items[0].kind, items[0].nr;
        WalkBounds(ps, items[1..], After(ps, addr, kind, nr));
        RunAscends(ps, addr, kind, nr);
      }
    }
  }

  lemma SameMeaning(ps: Pass, items: seq<Item>, addr: nat)
    requires Addressed(items)
    ensures Meaning(ps, items, addr).reps == Meaning(ps, items, 0).reps
    ensures Meaning(ps, items, addr).Walked? <==> Meaning(ps, items, 0).Walked?
  {
  }

  lemma {:induction false} ScanAscends(ps: Pass, bufs: seq<seq<Byte>>)
    requires AllLegible(bufs) && AllWalked(ps, bufs) && Upward(ps, bufs)
    ensures Ascending(ReportsOf(ps, bufs)) && Within(ReportsOf(ps, bufs), 0, EndOf(ps, bufs))
    decreases |bufs|
  {
    hide Meaning;
    hide Items;
    hide Forward;
    hide Ascending;
    if bufs == [] {
      NoneAscend();
    } else {
      var front, last := bufs[..|bufs| - 1], bufs[|bufs| - 1];
      var items, at := Items(last, 0), EndOf(ps, front);
      assert forall i :: 0 <= i < |front| ==> front[i] == bufs[i];
      assert Decoded(ps, bufs[|bufs| - 1]).Walked?;
      ScanAscends(ps, front);
      WalkFrom(ps, items, at);
      WalkBounds(ps, items, at);
      SameMeaning(ps, items, at);
      AppendAscends(ReportsOf(ps, front), Meaning(ps, items, at).reps, 0, at);
    }
  }

  // ----- what was accessed in which scan

  /** Some buffer of the scan has a run of one of the first `kinds` kinds that reports the page. */
  ghost predicate ScanHits(shift: Shift, bufs: seq<seq<Byte>>, addr: nat, kinds: nat)
    requires AllLegible(bufs)
  {
    exists i :: 0 <= i < |bufs| && Hit(shift, Items(bufs[i], 0), 0, addr, kinds)
  }

  /** The scans in which a run of kinds 0 to 4 reports the page, that is in which it was accessed. */
  ghost function AccessedIn(shift: Shift, scans: seq<seq<seq<Byte>>>, addr: nat): set<int>
    requires AllScansLegible(scans)
  {
    set i | 0 <= i < |scans| && ScanHits(shift, scans[i], addr, 5)
  }

  /** The middle of each of these scans, in order. */
  ghost function AccessTimes(shift: Shift, scans: seq<seq<seq<Byte>>>, addr: nat): seq<real>
    requires AllScansLegible(scans)
  {
    if scans == [] then []
    else
      var n := |scans| - 1;
      AccessTimes(shift, scans[..n], addr) + if ScanHits(shift, scans[n], addr, 5) then [n as real + 0.5] else []
  }

  lemma SeenMore(shift: Shift, scans: seq<seq<seq<Byte>>>, addr: nat)
    requires AllScansLegible(scans) && scans != []
    ensures var n := |scans| - 1; var before := AccessedIn(shift, scans[..n], addr);
      && (forall i :: i in before ==> 0 <= i < n)
      && AccessedIn(shift, scans, addr) == if ScanHits(shift, scans[n], addr, 5) then before + {n} else before
  {
    hide ScanHits;
    var n := |scans| - 1;
    assert forall i :: 0 <= i < n ==> scans[..n][i] == scans[i];
  }

  ghost predicate Latest(ts: seq<real>, seen: set<int>) {
    && |ts| == |seen|
    && (seen != {} ==> ts != [] && exists i :: i in seen && (forall k :: k in seen ==> k <= i) && ts[|ts| - 1] == i as real + 0.5)
  }

  lemma LatestMore(ts: seq<real>, seen: set<int>, n: nat)
    requires Latest(ts, seen) && forall i :: i in seen ==> 0 <= i < n
    ensures Latest(ts + [n as real + 0.5], seen + {n})
  {
    assert n in seen + {n};
  }

  /** There are as many access times as scans with an access, and the last belongs to the latest of them. */
  lemma {:induction false} AccessTimesMean(shift: Shift, scans: seq<seq<seq<Byte>>>, addr: nat)
    requires AllScansLegible(scans)
    ensures Latest(AccessTimes(shift, scans, addr), AccessedIn(shift, scans, addr))
  {
    hide ScanHits;
    hide AccessedIn;
    hide Latest;
    if scans == [] {
      NothingAccessed(shift, addr);
    } else {
      var n := |scans| - 1;
      AccessTimesMean(shift, scans[..n], addr);
      SeenMore(shift, scans, addr);
      if ScanHits(shift, scans[n], addr, 5) {
        LatestMore(AccessTimes(shift, scans[..n], addr), AccessedIn(shift, scans[..n], addr), n);
      } else {
        assert AccessTimes(shift, scans, addr) == AccessTimes(shift, scans[..n], addr);
      }
    }
  }

  lemma NothingAccessed(shift: Shift, addr: nat)
    ensures Latest([], AccessedIn(shift, [], addr))
  {
    assert AccessedIn(shift, [], addr) == {};
  }

  lemma {:induction false} ReportsTimed(ps: Pass, bufs: seq<seq<Byte>>, addr: nat)
    requires AllLegible(bufs)
    ensures var reps := ReportsOf(ps, bufs); var time := ps.loop as real + 0.5;
      && TimesAre(reps, time)
      && (Mentions(reps, addr) <==> ScanHits(ps.shift, bufs, addr, 8))
      && (Timed(reps, addr, time) <==> ScanHits(ps.shift, bufs, addr, 5))
  {
    hide Mentions;
    hide Timed;
    hide TimesAre;
    hide Hit;
    hide Meaning;
    hide Items;
    hide ScanHits;
    var time := ps.loop as real + 0.5;
    if bufs == [] {
      NothingTimed(addr, time);
      NoHits(ps.shift, addr, 8);
      NoHits(ps.shift, addr, 5);
    } else {
      var n := |bufs| - 1;
      ReportsTimed(ps, bufs[..n], addr);
      WalkTimed(ps, Items(bufs[n], 0), 0, addr);
      MentionsAppend(ReportsOf(ps, bufs[..n]), Decoded(ps, bufs[n]).reps, addr, time);
      OneMoreHit(ps.shift, bufs, addr, 8);
      OneMoreHit(ps.shift, bufs, addr, 5);
    }
  }

  lemma NoHits(shift: Shift, addr: nat, kinds: nat)
    ensures !ScanHits(shift, [], addr, kinds)
  {
  }

  lemma OneMoreHit(shift: Shift, bufs: seq<seq<Byte>>, addr: nat, kinds: nat)
    requires AllLegible(bufs) && bufs != []
    ensures var n := |bufs| - 1;
      ScanHits(shift, bufs, addr, kinds) <==> ScanHits(shift, bufs[..n], addr, kinds) || Hit(shift, Items(bufs[n], 0), 0, addr, kinds)
  {
    hide Hit;
    hide Items;
    var n := |bufs| - 1;
    assert forall i :: 0 <= i < n ==> bufs[..n][i] == bufs[i];
  }

  /** Of all reports of a page, the visits are the scans that report it as accessed. */
  lemma {:induction false} VisitsAreAccesses(shift: Shift, scans: seq<seq<seq<Byte>>>, addr: nat)
    requires AllScansLegible(scans)
    requires forall i :: 0 <= i < |scans| ==> AllWalked(Pass(shift, i), scans[i]) && Upward(Pass(shift, i), scans[i])
    ensures var times := TimesOf(Joined(AllReports(shift, scans)), addr);
      && Visits(times) == AccessTimes(shift, scans, addr)
      && (times != [] <==> exists i :: 0 <= i < |scans| && ScanHits(shift, scans[i], addr, 8))
    decreases |scans|
  {
    hide AllWalked;
    hide Upward;
    hide ScanHits;
    hide ReportsOf;
    hide TimesOf;
    hide Visits;
    hide Ascending;
    hide Timed;
    hide TimesAre;
    hide Mentions;
    if scans == [] {
      NothingVisited(addr);
    } else {
      var n := |scans| - 1;
      var ps := Pass(shift, n);
      var all := AllReports(shift, scans);
      var front := scans[..n];
      assert forall i :: 0 <= i < n ==> front[i] == scans[i];
      VisitsAreAccesses(shift, front, addr);
      assert AllReports(shift, front) == all[..n];
      ScanAscends(ps, scans[n]);
      ReportsTimed(ps, scans[n], addr);
      ScanVisits(all[n], addr, n as real + 0.5);
      NoTimes(all[n], addr);
      TimesAppend(Joined(all[..n]), all[n], addr);
      VisitsAppend(TimesOf(Joined(all[..n]), addr), TimesOf(all[n], addr));
    }
  }

  lemma NothingVisited(addr: nat)
    ensures TimesOf([], addr) == [] && Visits([]) == []
  {
  }

  /** What a record says of the scans in which its page was accessed: how many there were, and the latest. */
  ghost predicate CountsAccesses(r: PageRec, seen: set<int>) {
    && r.m + 2 == |seen|
    && (seen == {} ==> r.last == -1.0)
    && (seen != {} ==> exists i :: i in seen && (forall k :: k in seen ==> k <= i) && r.last == i as real + 0.5)
  }

  /**
   From the bytes of any number of scans to the records: when every scan can be read and goes upwards, the
   list is in strict address order and has a record for exactly the pages that a run of kinds 0 to 7 reports
   in some scan. The record counts the scans in which a run of kinds 0 to 4 reports the page, knows the latest
   of them, and carries the mean of the logged intervals between them.
   */
  lemma DoScanExact(f: Maths, shift: Shift, scans: seq<seq<seq<Byte>>>, addr: nat)
    requires AllScansLegible(scans)
    requires forall i :: 0 <= i < |scans| ==> AllWalked(Pass(shift, i), scans[i]) && Upward(Pass(shift, i), scans[i])
    ensures Sorted(Scanned(f, AllReports(shift, scans)))
    ensures var r := At(Scanned(f, AllReports(shift, scans)), addr);
      && (r.Present? <==> exists i :: 0 <= i < |scans| && ScanHits(shift, scans[i], addr, 8))
      && (r.Present? ==>
            && CountsAccesses(r.rec, AccessedIn(shift, scans, addr))
            && Describes(f, r.rec, AccessTimes(shift, scans, addr)))
  {
    hide AllWalked;
    hide Upward;
    hide Ascending;
    hide ScanHits;
    hide AccessTimes;
    hide AccessedIn;
    hide Logged;
    hide Sum;
    var all := AllReports(shift, scans);
    forall i | 0 <= i < |all|
      ensures Ascending(all[i])
    {
      ScanAscends(Pass(shift, i), scans[i]);
    }
    ScansExact(f, all, addr);
    VisitsAreAccesses(shift, scans, addr);
    AccessTimesMean(shift, scans, addr);
  }
}
