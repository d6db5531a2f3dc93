/**
 Which pages a scan's bytes report, and which of them as accessed, read off the kinds of the runs: kinds 0
 to 4 are accessed pages, 5 to 7 idle ones, 8 and 9 holes.
 */
module ScanAccess {
  import opened VisitStats
  import opened ScanMerge
  import opened ScanDecode

  // ----- sizes

  function Small(shift: Shift): nat {
    Pow2(shift)
  }

  /** A page of tables holds this many eight-byte entries, so many pages make up one of the next size. */
  function Entries(shift: Shift): nat {
    Small(shift) / 8
  }

  /** The size of the pages that a run of this kind reports. */
  function PageBytes(shift: Shift, kind: Kind): nat {
    if kind == 2 then Small(shift) * Entries(shift) * Entries(shift)
    else if kind in {1, 4, 6, 9} then Small(shift) * Entries(shift)
    else Small(shift)
  }

  /** How far one unit of a run moves the address. */
  function StepBytes(shift: Shift, kind: Kind): nat {
    if kind == 7 then Small(shift) * Entries(shift) else PageBytes(shift, kind)
  }

  lemma TableSizes(shift: Shift)
    ensures SizeOf(shift, Pte) == Small(shift)
    ensures SizeOf(shift, Pmd) == Small(shift) * Entries(shift)
    ensures SizeOf(shift, Pud) == Small(shift) * Entries(shift) * Entries(shift)
  {
    var n: nat := shift - 3;
    PowAdd(3, n);
    assert Pow2(3) == 8;
    assert Entries(shift) == Pow2(n);
    PowAdd(n, shift);
    PowAdd(n, n + shift);
    assert n + shift == n * 2 + 3 && n + (n + shift) == n * 3 + 3;
    Regroup(Pow2(n), Pow2(shift));
  }

  lemma Regroup(a: nat, b: nat)
    ensures a * b == b * a && a * (a * b) == b * a * a
  {
  }

  /** The sizes by kind: of the pages, and of the steps. With 4 KB base pages they are 4 KB, 2 MB and 1 GB. */
  lemma KindSizes(shift: Shift, kind: Kind)
    ensures SizeOf(shift, TypeOf(kind)) == StepBytes(shift, kind)
    ensures kind <= 7 ==> SizeOf(shift, TypeOf(PageKind(kind))) == PageBytes(shift, kind)
    ensures 1 <= PageBytes(shift, kind)
    ensures shift == 12 ==>
      PageBytes(shift, kind) == if kind == 2 then 0x4000_0000 else if kind in {1, 4, 6, 9} then 0x20_0000 else 0x1000
  {
    TableSizes(shift);
    hide SizeOf;
    if shift == 12 {
      assert Pow2(4) == 16;
      PowAdd(4, 4);
      PowAdd(4, 8);
    }
  }

  // ----- runs

  /** The run reports the page at `addr`: aligned to the run's page size, and within the run. A block of idle small
      pages is 512 of them. */
  ghost predicate InRun(shift: Shift, at: nat, kind: Kind, nr: nat, addr: nat) {
    var size := PageBytes(shift, kind);
    && kind <= 7 && 0 < size && at % size == 0 && addr % size == 0
    && at <= addr < at + (if kind == 7 then 512 * nr else nr) * size
  }

  ghost predicate Mentions(reps: seq<Report>, addr: nat) {
    exists k :: 0 <= k < |reps| && reps[k].addr == addr
  }

  lemma GridPoint(at: nat, size: nat, n: nat, addr: nat) returns (k: nat)
    requires size > 0 && at % size == 0 && addr % size == 0 && at <= addr < at + n * size
    ensures k < n && addr == at + k * size
  {
    var a, b := at / size, addr / size;
    assert at == a * size && addr == b * size;
    k := Distance(a, b, n, size);
  }

  lemma Compare(a: nat, b: nat, size: nat)
    requires size > 0
    ensures a * size <= b * size <==> a <= b
  {
    if a < b {
      Further(a, b, size);
    } else if b < a {
      Further(b, a, size);
    }
  }

  lemma Distance(a: nat, b: nat, n: nat, size: nat) returns (k: nat)
    requires size > 0 && a * size <= b * size < a * size + n * size
    ensures k < n && b * size == a * size + k * size
  {
    Distribute(a, n, size);
    Compare(a, b, size);
    Compare(a + n, b, size);
    k := b - a;
    Distribute(a, k, size);
  }

  lemma Distribute(a: nat, b: nat, size: nat)
    ensures (a + b) * size == a * size + b * size
  {
  }

  lemma Multiple(at: nat, size: nat, k: nat)
    requires size > 0 && at % size == 0
    ensures (at + k * size) % size == 0
  {
    var q := at / size;
    assert at == q * size;
    Distribute(q, k, size);
    Divided(q + k, size);
  }

  lemma Divided(m: nat, size: nat)
    requires size > 0
    ensures m * size % size == 0
  {
    var x := m * size;
    var d := x / size;
    assert x == d * size + x % size;
    Distribute(d, 1, size);
    Compare(d, m, size);
    Compare(d + 1, m, size);
    assert d == m;
  }

  lemma RowMentions(ps: Pass, at: nat, kind: Kind, nr: nat, addr: nat)
    requires at % SizeOf(ps.shift, TypeOf(kind)) == 0
    ensures var size := SizeOf(ps.shift, TypeOf(kind));
      Mentions(Row(ps, at, kind, nr), addr) <==> addr % size == 0 && at <= addr < at + nr * size
  {
    hide SizeOf;
    var size, row := SizeOf(ps.shift, TypeOf(kind)), Row(ps, at, kind, nr);
    if Mentions(row, addr) {
      var k :| 0 <= k < |row| && row[k].addr == addr;
      Multiple(at, size, k);
      Further(k, nr, size);
    }
    if addr % size == 0 && at <= addr < at + nr * size {
      var k := GridPoint(at, size, nr, addr);
      assert row[k].addr == addr;
    }
  }

  /** The type of the pages that a run of this kind reports. */
  function RunType(kind: Kind): PageType {
    if kind == 2 then Pud else if kind in {1, 4, 6} then Pmd else Pte
  }

  /** An aligned run reports exactly its pages: of kinds 0 to 4 as accessed in this scan, of kinds 5 to 7 as
      idle. */
  lemma RunTimes(ps: Pass, at: nat, kind: Kind, nr: nat, addr: nat)
    ensures var reps := RunReports(ps, at, kind, nr);
      && (forall k :: 0 <= k < |reps| ==> reps[k].time == if kind <= 4 then ps.loop as real + 0.5 else -1.0)
      && (forall k :: 0 <= k < |reps| ==> reps[k].kind == RunType(kind))
      && (Mentions(reps, addr) <==> InRun(ps.shift, at, kind, nr, addr))
  {
    hide SizeOf;
    hide Mentions;
    hide PageBytes;
    KindSizes(ps.shift, kind);
    NoneMentioned(addr);
    if kind <= 7 && at % PageBytes(ps.shift, kind) == 0 {
      RowMentions(ps, at, PageKind(kind), PageCount(kind, nr), addr);
    }
  }

  lemma NoneMentioned(addr: nat)
    ensures !Mentions([], addr)
  {
  }

  // ----- streams

  function Onward(at: nat, nr: nat, step: nat): nat {
    at + nr * step
  }

  /** Walking the items from address `at`, a run of one of the first `kinds` kinds reports `addr`; a run before
      any address ends the walk. */
  ghost predicate Hit(shift: Shift, items: seq<Item>, at: nat, addr: nat, kinds: nat)
    decreases |items|
  {
    items != [] &&
      match items[0]
      case SetAddress(a) => Hit(shift, items[1..], a, addr, kinds)
      case Run(kind, nr) =>
        && at != 0
        && (|| (kind < kinds && InRun(shift, at, kind, nr, addr))
            || Hit(shift, items[1..], Onward(at, nr, StepBytes(shift, kind)), addr, kinds))
  }

  /** The page is reported with this time. */
  ghost predicate Timed(reps: seq<Report>, addr: nat, time: real) {
    exists k :: 0 <= k < |reps| && reps[k].addr == addr && reps[k].time == time
  }

  ghost predicate TimesAre(reps: seq<Report>, time: real) {
    forall k :: 0 <= k < |reps| ==> reps[k].time == time || reps[k].time == -1.0
  }

  lemma MentionsAppend(a: seq<Report>, b: seq<Report>, addr: nat, time: real)
    ensures Mentions(a + b, addr) <==> Mentions(a, addr) || Mentions(b, addr)
    ensures Timed(a + b, addr, time) <==> Timed(a, addr, time) || Timed(b, addr, time)
    ensures TimesAre(a, time) && TimesAre(b, time) ==> TimesAre(a + b, time)
  {
    var all := a + b;
    assert forall k :: 0 <= k < |a| ==> all[k] == a[k];
    assert forall k :: 0 <= k < |b| ==> all[|a| + k] == b[k];
  }

  lemma RunTimed(ps: Pass, at: nat, kind: Kind, nr: nat, addr: nat)
    ensures var reps := RunReports(ps, at, kind, nr); var time := ps.loop as real + 0.5;
      && TimesAre(reps, time)
      && (Mentions(reps, addr) <==> InRun(ps.shift, at, kind, nr, addr))
      && (Timed(reps, addr, time) <==> kind < 5 && InRun(ps.shift, at, kind, nr, addr))
  {
    hide RunReports;
    hide InRun;
    RunTimes(ps, at, kind, nr, addr);
  }

  /** The reports of a walk: the pages of its runs, accessed in this scan exactly for kinds 0 to 4. */
  lemma {:induction false} WalkTimed(ps: Pass, items: seq<Item>, at: nat, addr: nat)
    ensures var reps := Meaning(ps, items, at).reps; var time := ps.loop as real + 0.5;
      && TimesAre(reps, time)
      && (Mentions(reps, addr) <==> Hit(ps.shift, items, at, addr, 8))
      && (Timed(reps, addr, time) <==> Hit(ps.shift, items, at, addr, 5))
    decreases |items|
  {
    hide RunReports;
    hide InRun;
    hide Mentions;
    hide Timed;
    hide TimesAre;
    hide StepBytes;
    hide SizeOf;
    hide TypeOf;
    var time := ps.loop as real + 0.5;
    NothingTimed(addr, time);
    if items != [] {
      match items[0]
      case SetAddress(a) => WalkTimed(ps, items[1..], a, addr);
      case Run(kind, nr) =>
        var next := After(ps, at, kind, nr);
        KindSizes(ps.shift, kind);
        WalkTimed(ps, items[1..], next, addr);
        RunTimed(ps, at, kind, nr, addr);
        HolesOutside(ps.shift, at, kind, nr, addr);
        MentionsAppend(RunReports(ps, at, kind, nr), Meaning(ps, items[1..], next).reps, addr, time);
    }
  }

  lemma NothingTimed(addr: nat, time: real)
    ensures !Mentions([], addr) && !Timed([], addr, time) && TimesAre([], time)
  {
  }

  lemma HolesOutside(shift: Shift, at: nat, kind: Kind, nr: nat, addr: nat)
    ensures InRun(shift, at, kind, nr, addr) ==> kind < 8
  {
  }

  // ----- times of one page

  lemma {:induction false} TimesAppend(a: seq<Report>, b: seq<Report>, addr: nat)
    ensures TimesOf(a + b, addr) == TimesOf(a, addr) + TimesOf(b, addr)
    decreases |b|
  {
    if b == [] {
      assert a + b == a;
    } else {
      assert (a + b)[..|a + b| - 1] == a + b[..|b| - 1];
      TimesAppend(a, b[..|b| - 1], addr);
    }
  }

  lemma {:induction false} VisitsAppend(a: seq<real>, b: seq<real>)
    ensures Visits(a + b) == Visits(a) + Visits(b)
    decreases |b|
  {
    if b == [] {
      assert a + b == a;
    } else {
      assert (a + b)[..|a + b| - 1] == a + b[..|b| - 1];
      VisitsAppend(a, b[..|b| - 1]);
    }
  }

  lemma {:induction false} NoTimes(reps: seq<Report>, addr: nat)
    ensures TimesOf(reps, addr) == [] <==> !Mentions(reps, addr)
  {
    if reps == [] {
      NoneMentioned(addr);
    } else {
      var n := |reps| - 1;
      NoTimes(reps[..n], addr);
      assert reps == reps[..n] + [reps[n]];
      OneMentioned(reps[n], addr, 0.0);
      hide Mentions;
      hide Timed;
      MentionsAppend(reps[..n], [reps[n]], addr, 0.0);
    }
  }

  lemma OneMentioned(rep: Report, addr: nat, time: real)
    ensures Mentions([rep], addr) <==> rep.addr == addr
    ensures Timed([rep], addr, time) <==> rep.addr == addr && rep.time == time
  {
    assert [rep][0] == rep;
  }

  lemma LastReport(reps: seq<Report>, time: real)
    requires reps != [] && Ascending(reps) && TimesAre(reps, time)
    ensures var n := |reps| - 1; var front := reps[..n];
      && reps == front + [reps[n]] && Ascending(front) && TimesAre(front, time)
      && (forall k :: 0 <= k < |front| ==> front[k].addr < reps[n].addr)
      && (reps[n].time == time || reps[n].time == -1.0)
  {
  }

  /** In one scan, which reports a page at most once: the visits of a page are the scan's time, or none. */
  lemma {:induction false} ScanVisits(reps: seq<Report>, addr: nat, time: real)
    requires Ascending(reps) && TimesAre(reps, time) && time != -1.0
    ensures Visits(TimesOf(reps, addr)) == if Timed(reps, addr, time) then [time] else []
  {
    hide Mentions;
    hide Timed;
    hide TimesAre;
    hide Ascending;
    hide TimesOf;
    hide Visits;
    if reps == [] {
      NothingTimed(addr, time);
      NoReportNoVisit(addr);
    } else {
      LastReport(reps, time);
      var front, last := reps[..|reps| - 1], reps[|reps| - 1];
      ScanVisits(front, addr, time);
      MentionsAppend(front, [last], addr, time);
      OneMentioned(last, addr, time);
      TimesAppend(front, [last], addr);
      VisitsAppend(TimesOf(front, addr), TimesOf([last], addr));
      OneTime(last, addr);
      if last.addr == addr {
        NotBefore(front, addr);
      }
    }
  }

  lemma NoReportNoVisit(addr: nat)
    ensures Visits(TimesOf([], addr)) == []
  {
  }

  lemma OneTime(rep: Report, addr: nat)
    ensures TimesOf([rep], addr) == if rep.addr == addr then [rep.time] else []
    ensures Visits([]) == [] && Visits([rep.time]) == if rep.time == -1.0 then [] else [rep.time]
  {
    assert [rep][..0] == [] && [rep.time][..0] == [];
  }

  lemma NotBefore(front: seq<Report>, addr: nat)
    requires forall k :: 0 <= k < |front| ==> front[k].addr < addr
    ensures !Mentions(front, addr) && forall time :: !Timed(front, addr, time)
  {
  }
}
