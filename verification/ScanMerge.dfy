/**
 The page records of a process over repeated scans: a list in address order, into which every scan
 enters its reports from a cursor that only moves forward.
 */
module ScanMerge {
  import opened VisitStats

  datatype Report = Report(addr: nat, kind: PageType, time: real)

  datatype Found = Absent | Present(rec: PageRec)

  /** Position of the first record from `from` on that is not in front of `addr`. */
  function Pos(recs: seq<PageRec>, from: nat, addr: nat): (i: nat)
    requires from <= |recs|
    ensures from <= i <= |recs|
    ensures forall k :: from <= k < i ==> recs[k].addr < addr
    ensures i < |recs| ==> recs[i].addr >= addr
    decreases |recs| - from
  {
    if from == |recs| || recs[from].addr >= addr then from else Pos(recs, from + 1, addr)
  }

  /** The list after one report, searched from `from` on. */
  function Entered(f: Maths, recs: seq<PageRec>, from: nat, rep: Report): seq<PageRec>
    requires from <= |recs|
  {
    var i := Pos(recs, from, rep.addr);
    if i < |recs| && recs[i].addr == rep.addr then recs[i := Visit(f, recs[i], rep.time)]
    else recs[..i] + [NewRec(rep.addr, rep.kind, rep.time)] + recs[i..]
  }

  class PageList {
    const f: Maths
    var recs: seq<PageRec>

    constructor (f: Maths)
      ensures this.f == f && recs == []
    {
      this.f, recs := f, [];
    }

    /** `update_page_refs`: enter a report at or behind the cursor; the cursor moves behind its record. */
    method Update(rep: Report, from: nat) returns (cursor: nat)
      requires from <= |recs|
      modifies this
      ensures recs == Entered(f, old(recs), from, rep)
      ensures cursor == Pos(old(recs), from, rep.addr) + 1 <= |recs|
      decreases |recs| - from
    {
      if from == |recs| {
        recs := recs + [NewRec(rep.addr, rep.kind, rep.time)];
        return from + 1;
      }
      if rep.addr == recs[from].addr {
        recs := recs[from := Visit(f, recs[from], rep.time)];
        return from + 1;
      }
      if rep.addr > recs[from].addr {
        cursor := Update(rep, from + 1);
        return;
      }
      recs := recs[..from] + [NewRec(rep.addr, rep.kind, rep.time)] + recs[from..];
      cursor := from + 1;
    }
  }

  /** List and cursor after a stream of reports. */
  function CursorRun(f: Maths, recs: seq<PageRec>, from: nat, reps: seq<Report>): (r: (seq<PageRec>, nat))
    requires from <= |recs|
    ensures r.1 <= |r.0|
    decreases |reps|
  {
    if reps == [] then (recs, from)
    else
      var n := |reps| - 1;
      var before := CursorRun(f, recs, from, reps[..n]);
      (Entered(f, before.0, before.1, reps[n]), Pos(before.0, before.1, reps[n].addr) + 1)
  }

  lemma {:induction false} CursorRunAppend(f: Maths, recs: seq<PageRec>, from: nat, a: seq<Report>, b: seq<Report>)
    requires from <= |recs|
    ensures var r := CursorRun(f, recs, from, a); CursorRun(f, recs, from, a + b) == CursorRun(f, r.0, r.1, b)
    decreases |b|
  {
    hide Entered;
    hide Pos;
    if b == [] {
      assert a + b == a;
    } else {
      assert (a + b)[..|a + b| - 1] == a + b[..|b| - 1];
      CursorRunAppend(f, recs, from, a, b[..|b| - 1]);
    }
  }

  /** The same with every search restarted from the head of the list. */
  function HeadRun(f: Maths, recs: seq<PageRec>, reps: seq<Report>): seq<PageRec>
    decreases |reps|
  {
    if reps == [] then recs else Entered(f, HeadRun(f, recs, reps[..|reps| - 1]), 0, reps[|reps| - 1])
  }

  ghost predicate Sorted(recs: seq<PageRec>) {
    forall i, j :: 0 <= i < j < |recs| ==> recs[i].addr < recs[j].addr
  }

  ghost predicate Ascending(reps: seq<Report>) {
    forall i, j :: 0 <= i < j < |reps| ==> reps[i].addr < reps[j].addr
  }

  lemma PosFrom(recs: seq<PageRec>, from: nat, addr: nat)
    requires from <= |recs| && forall k :: 0 <= k < from ==> recs[k].addr < addr
    ensures Pos(recs, from, addr) == Pos(recs, 0, addr)
  {
    hide Pos;
    var i, j := Pos(recs, from, addr), Pos(recs, 0, addr);
    assert !(i < j);
    assert !(j < i);
  }

  /** Entering keeps the list in strict address order, and puts the report's record at its position. */
  lemma EnteredSorted(f: Maths, recs: seq<PageRec>, rep: Report)
    requires Sorted(recs)
    ensures Sorted(Entered(f, recs, 0, rep))
    ensures var i := Pos(recs, 0, rep.addr); i < |Entered(f, recs, 0, rep)| && Entered(f, recs, 0, rep)[i].addr == rep.addr
  {
    hide Pos;
    var i := Pos(recs, 0, rep.addr);
    var out := Entered(f, recs, 0, rep);
    if i < |recs| && recs[i].addr == rep.addr {
      assert forall k :: 0 <= k < |out| ==> out[k].addr == recs[k].addr;
    } else {
      assert forall k :: 0 <= k < |out| && k != i ==> out[k] == recs[if k < i then k else k - 1];
      assert i < |recs| ==> recs[i].addr > rep.addr;
      assert forall k :: i <= k < |recs| ==> recs[k].addr > rep.addr;
    }
  }

  /**
   For reports in strictly ascending order the cursor makes no difference: the list is the one obtained
   by searching from the head every time, and it stays in strict address order.
   */
  lemma {:induction false} CursorIsHead(f: Maths, recs: seq<PageRec>, reps: seq<Report>)
    requires Sorted(recs) && Ascending(reps)
    ensures CursorRun(f, recs, 0, reps).0 == HeadRun(f, recs, reps) && Sorted(HeadRun(f, recs, reps))
    ensures reps != [] ==>
      var r := CursorRun(f, recs, 0, reps); r.1 > 0 && r.0[r.1 - 1].addr == reps[|reps| - 1].addr
    decreases |reps|
  {
    hide Pos;
    hide Entered;
    if reps != [] {
      var n := |reps| - 1;
      CursorIsHead(f, recs, reps[..n]);
      var r := CursorRun(f, recs, 0, reps[..n]);
      forall k | 0 <= k < r.1
        ensures r.0[k].addr < reps[n].addr
      {
        assert n > 0;
        assert reps[..n][n - 1].addr < reps[n].addr;
        assert k == r.1 - 1 || r.0[k].addr < r.0[r.1 - 1].addr;
      }
      SameEntry(f, r.0, r.1, reps[n]);
      EnteredSorted(f, r.0, reps[n]);
    }
  }

  lemma SameEntry(f: Maths, recs: seq<PageRec>, from: nat, rep: Report)
    requires from <= |recs| && forall k :: 0 <= k < from ==> recs[k].addr < rep.addr
    ensures Entered(f, recs, from, rep) == Entered(f, recs, 0, rep) && Pos(recs, from, rep.addr) == Pos(recs, 0, rep.addr)
  {
    hide Pos;
    PosFrom(recs, from, rep.addr);
  }

  /** Two neighbours in front of the cursor that are out of order. */
  ghost predicate Disordered(recs: seq<PageRec>, cursor: nat)
    requires cursor <= |recs|
  {
    exists j :: 0 < j < cursor && recs[j].addr <= recs[j - 1].addr
  }

  lemma DisorderStays(f: Maths, recs: seq<PageRec>, from: nat, rep: Report)
    requires from <= |recs| && Disordered(recs, from)
    ensures Pos(recs, from, rep.addr) < |Entered(f, recs, from, rep)|
    ensures Disordered(Entered(f, recs, from, rep), Pos(recs, from, rep.addr) + 1)
  {
    hide Pos;
    var j :| 0 < j < from && recs[j].addr <= recs[j - 1].addr;
    var out := Entered(f, recs, from, rep);
    assert out[j] == recs[j] && out[j - 1] == recs[j - 1];
  }

  lemma DisorderArises(f: Maths, recs: seq<PageRec>, from: nat, rep: Report)
    requires Sorted(recs) && 0 < from <= |recs| && rep.addr <= recs[from - 1].addr
    ensures Pos(recs, from, rep.addr) < |Entered(f, recs, from, rep)|
    ensures Disordered(Entered(f, recs, from, rep), Pos(recs, from, rep.addr) + 1)
  {
    assert from < |recs| ==> recs[from].addr > recs[from - 1].addr;
    var out := Entered(f, recs, from, rep);
    assert out[from].addr == rep.addr && out[from - 1] == recs[from - 1];
  }

  lemma {:induction false} CursorDisorder(f: Maths, recs: seq<PageRec>, reps: seq<Report>)
    requires Sorted(recs) && !Ascending(reps)
    ensures Disordered(CursorRun(f, recs, 0, reps).0, CursorRun(f, recs, 0, reps).1)
    decreases |reps|
  {
    hide Pos;
    hide Entered;
    hide Disordered;
    var n := |reps| - 1;
    var r := CursorRun(f, recs, 0, reps[..n]);
    if Ascending(reps[..n]) {
      CursorIsHead(f, recs, reps[..n]);
      var i, j :| 0 <= i < j < |reps| && reps[i].addr >= reps[j].addr;
      var front := reps[..n];
      assert forall k :: 0 <= k < n ==> front[k] == reps[k];
      assert j == n;
      assert i < n - 1 ==> front[i].addr < front[n - 1].addr;
      DisorderArises(f, r.0, r.1, reps[n]);
    } else {
      CursorDisorder(f, recs, reps[..n]);
      DisorderStays(f, r.0, r.1, reps[n]);
    }
  }

  lemma {:induction false} HeadRunSorted(f: Maths, recs: seq<PageRec>, reps: seq<Report>)
    requires Sorted(recs)
    ensures Sorted(HeadRun(f, recs, reps))
    decreases |reps|
  {
    hide Entered;
    if reps != [] {
      HeadRunSorted(f, recs, reps[..|reps| - 1]);
      EnteredSorted(f, HeadRun(f, recs, reps[..|reps| - 1]), reps[|reps| - 1]);
    }
  }

  /** The cursor is as good as the head exactly for strictly ascending reports: any other stream, even
      one that repeats an address, leaves a list out of order. */
  lemma CursorExact(f: Maths, recs: seq<PageRec>, reps: seq<Report>)
    requires Sorted(recs)
    ensures CursorRun(f, recs, 0, reps).0 == HeadRun(f, recs, reps) <==> Ascending(reps)
    ensures Sorted(CursorRun(f, recs, 0, reps).0) <==> Ascending(reps)
  {
    hide Entered;
    hide Pos;
    HeadRunSorted(f, recs, reps);
    if Ascending(reps) {
      CursorIsHead(f, recs, reps);
    } else {
      CursorDisorder(f, recs, reps);
    }
  }

  /** For one, the same address twice in a row. */
  lemma RepeatDisorders(f: Maths, rep: Report)
    ensures !Sorted(CursorRun(f, [], 0, [rep, rep]).0) && CursorRun(f, [], 0, [rep, rep]).0 != HeadRun(f, [], [rep, rep])
  {
    hide CursorRun;
    hide HeadRun;
    var reps := [rep, rep];
    assert reps[0].addr == reps[1].addr;
    CursorExact(f, [], reps);
  }

  // ----- what the list says of each page

  function At(recs: seq<PageRec>, addr: nat): (r: Found)
    ensures r.Present? ==> r.rec.addr == addr && r.rec in recs
  {
    if recs == [] then Absent else if recs[0].addr == addr then Present(recs[0]) else At(recs[1..], addr)
  }

  lemma {:induction false} AtIndex(recs: seq<PageRec>, i: nat)
    requires Sorted(recs) && i < |recs|
    ensures At(recs, recs[i].addr) == Present(recs[i])
  {
    if i > 0 {
      assert recs[0].addr < recs[i].addr;
      AtIndex(recs[1..], i - 1);
    }
  }

  lemma {:induction false} AtNone(recs: seq<PageRec>, addr: nat)
    requires forall i :: 0 <= i < |recs| ==> recs[i].addr != addr
    ensures At(recs, addr) == Absent
  {
    if recs != [] {
      AtNone(recs[1..], addr);
    }
  }

  lemma AtSome(recs: seq<PageRec>, addr: nat) returns (i: nat)
    requires At(recs, addr).Present?
    ensures i < |recs| && recs[i] == At(recs, addr).rec
  {
    i :| 0 <= i < |recs| && recs[i] == At(recs, addr).rec;
  }

  /** A report changes the record of its own page only. */
  lemma EnteredOthers(f: Maths, recs: seq<PageRec>, rep: Report, addr: nat)
    requires Sorted(recs) && addr != rep.addr
    ensures At(Entered(f, recs, 0, rep), addr) == At(recs, addr)
  {
    hide Pos;
    hide At;
    EnteredSorted(f, recs, rep);
    var out := Entered(f, recs, 0, rep);
    var i := Pos(recs, 0, rep.addr);
    var found := i < |recs| && recs[i].addr == rep.addr;
    assert forall k :: 0 <= k < |out| && k != i ==> out[k] == recs[if k < i || found then k else k - 1];
    if At(recs, addr).Present? {
      var k := AtSome(recs, addr);
      var j := if k < i || found then k else k + 1;
      assert out[j] == recs[k];
      AtIndex(out, j);
    } else {
      forall k | 0 <= k < |out|
        ensures out[k].addr != addr
      {
        if k != i {
          AtIndex(recs, if k < i || found then k else k - 1);
        }
      }
      AtNone(out, addr);
    }
  }

  /** The page reported: its record is visited, or made. */
  lemma EnteredOwn(f: Maths, recs: seq<PageRec>, rep: Report)
    requires Sorted(recs)
    ensures At(Entered(f, recs, 0, rep), rep.addr)
         == Present(match At(recs, rep.addr)
                    case Absent => NewRec(rep.addr, rep.kind, rep.time)
                    case Present(r) => Visit(f, r, rep.time))
  {
    hide Pos;
    hide At;
    EnteredSorted(f, recs, rep);
    var out := Entered(f, recs, 0, rep);
    var i := Pos(recs, 0, rep.addr);
    AtIndex(out, i);
    if i < |recs| && recs[i].addr == rep.addr {
      AtIndex(recs, i);
    } else {
      forall k | 0 <= k < |recs|
        ensures recs[k].addr != rep.addr
      {
        assert i < k ==> recs[i].addr < recs[k].addr;
      }
      AtNone(recs, rep.addr);
    }
  }

  /** The times at which `addr` was reported, and the page type of its first report. */
  function TimesOf(reps: seq<Report>, addr: nat): seq<real> {
    if reps == [] then []
    else TimesOf(reps[..|reps| - 1], addr) + (if reps[|reps| - 1].addr == addr then [reps[|reps| - 1].time] else [])
  }

  function KindOf(reps: seq<Report>, addr: nat): PageType {
    if reps == [] then Pte
    else if TimesOf(reps[..|reps| - 1], addr) == [] then reps[|reps| - 1].kind
    else KindOf(reps[..|reps| - 1], addr)
  }

  /** Whatever the reports: the list is in strict address order and holds, for exactly the reported
      pages, the record that follows from the history of its own reports alone. */
  lemma {:induction false} HeadRunExact(f: Maths, reps: seq<Report>, addr: nat)
    ensures Sorted(HeadRun(f, [], reps))
    ensures var times := TimesOf(reps, addr);
      At(HeadRun(f, [], reps), addr) == if times == [] then Absent else Present(History(f, addr, KindOf(reps, addr), times))
    decreases |reps|
  {
    hide Entered;
    if reps != [] {
      var n := |reps| - 1;
      HeadRunExact(f, reps[..n], addr);
      var recs := HeadRun(f, [], reps[..n]);
      EnteredSorted(f, recs, reps[n]);
      if addr == reps[n].addr {
        EnteredOwn(f, recs, reps[n]);
        var times := TimesOf(reps, addr);
        assert times[..|times| - 1] == TimesOf(reps[..n], addr);
      } else {
        EnteredOthers(f, recs, reps[n], addr);
        assert TimesOf(reps, addr) == TimesOf(reps[..n], addr);
      }
    }
  }

  /** The type of a page is that of its first report. */
  lemma {:induction false} KindIsFirst(reps: seq<Report>, addr: nat, k: nat)
    requires k < |reps| && reps[k].addr == addr && forall i :: 0 <= i < k ==> reps[i].addr != addr
    ensures KindOf(reps, addr) == reps[k].kind && TimesOf(reps, addr) != []
    decreases |reps|
  {
    var n := |reps| - 1;
    if k < n {
      KindIsFirst(reps[..n], addr, k);
    } else {
      NotReported(reps[..n], addr);
    }
  }

  lemma {:induction false} NotReported(reps: seq<Report>, addr: nat)
    requires forall i :: 0 <= i < |reps| ==> reps[i].addr != addr
    ensures TimesOf(reps, addr) == []
  {
    if reps != [] {
      NotReported(reps[..|reps| - 1], addr);
    }
  }

  // ----- repeated scans

  function Scanned(f: Maths, scans: seq<seq<Report>>): seq<PageRec> {
    if scans == [] then [] else CursorRun(f, Scanned(f, scans[..|scans| - 1]), 0, scans[|scans| - 1]).0
  }

  function Joined(scans: seq<seq<Report>>): seq<Report> {
    if scans == [] then [] else Joined(scans[..|scans| - 1]) + scans[|scans| - 1]
  }

  lemma {:induction false} HeadRunAppend(f: Maths, recs: seq<PageRec>, a: seq<Report>, b: seq<Report>)
    ensures HeadRun(f, recs, a + b) == HeadRun(f, HeadRun(f, recs, a), b)
    decreases |b|
  {
    hide Entered;
    if b == [] {
      assert a + b == a;
    } else {
      assert (a + b)[..|a + b| - 1] == a + b[..|b| - 1];
      HeadRunAppend(f, recs, a, b[..|b| - 1]);
    }
  }

  lemma {:induction false} ScansJoin(f: Maths, scans: seq<seq<Report>>)
    requires forall i :: 0 <= i < |scans| ==> Ascending(scans[i])
    ensures Scanned(f, scans) == HeadRun(f, [], Joined(scans)) && Sorted(Scanned(f, scans))
    decreases |scans|
  {
    hide Entered;
    if scans != [] {
      var n := |scans| - 1;
      ScansJoin(f, scans[..n]);
      CursorIsHead(f, Scanned(f, scans[..n]), scans[n]);
      HeadRunAppend(f, [], Joined(scans[..n]), scans[n]);
    }
  }

  /**
   Over any number of scans, each in ascending address order: the list is in strict address order; a
   page has a record exactly when it was reported; the record's visit count, latest visit, mean logged
   interval and spread are those of the page's own reports, whatever else was scanned.
   */
  lemma ScansExact(f: Maths, scans: seq<seq<Report>>, addr: nat)
    requires forall i :: 0 <= i < |scans| ==> Ascending(scans[i])
    ensures Sorted(Scanned(f, scans))
    ensures var times := TimesOf(Joined(scans), addr); var r := At(Scanned(f, scans), addr);
      && (r.Present? <==> times != [])
      && (r.Present? ==> Describes(f, r.rec, Visits(times)) && r.rec.kind == KindOf(Joined(scans), addr))
      && (r.Present? && ExactRoot(f) && |Visits(times)| >= 2 ==>
            ExcessOk(Excess(r.rec, Logged(f, Visits(times))), EverCut(f, addr, KindOf(Joined(scans), addr), times)))
  {
    hide History;
    hide Describes;
    hide ExactRoot;
    hide Excess;
    hide EverCut;
    hide Visits;
    ScansJoin(f, scans);
    HeadRunExact(f, Joined(scans), addr);
    var times := TimesOf(Joined(scans), addr);
    if times != [] {
      StatisticsExact(f, addr, KindOf(Joined(scans), addr), times);
      if ExactRoot(f) {
        SpreadHistory(f, addr, KindOf(Joined(scans), addr), times);
      }
    }
  }
}
