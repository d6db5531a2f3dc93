/**
 The byte stream in which the kernel reports the state of a process's pages: a command byte sets the
 current address, every other byte reports a run of up to 15 pages of one kind and moves the address
 behind the run.
 */
module ScanDecode {
  import opened VisitStats
  import opened ScanMerge

  type Byte = b: int | 0 <= b < 256

  /** `enum page_idle_type` up to the holes. Kinds below `PTE_IDLE` were accessed. */
  type Kind = k: int | 0 <= k <= 9

  const PTE_IDLE := 5
  const PMD_IDLE_PTES := 7
  const SET_HVA: Byte := 0xA0
  const PTES_PER_PMD := 512

  /** `g_page_type_by_idle_kind`. */
  function TypeOf(kind: Kind): PageType {
    if kind == 2 then Pud else if kind in {0, 3, 5, 8} then Pte else Pmd
  }

  function Pow2(n: nat): (r: nat)
    ensures r >= 1
  {
    if n == 0 then 1 else 2 * Pow2(n - 1)
  }

  /** A base page shift: 12, 14 or 16 on the supported systems. */
  type Shift = s: int | s >= 12 witness 12

  /** `init_g_page_size`. */
  function SizeOf(shift: Shift, t: PageType): (r: nat)
    ensures r >= 1
  {
    match t
    case Pte => Pow2(shift)
    case Pmd => Pow2((shift - 3) * 2 + 3)
    case Pud => Pow2((shift - 3) * 3 + 3)
  }

  /** What one scan is about: page sizes and the number of the scan within its loop. */
  datatype Pass = Pass(shift: Shift, loop: nat)

  function TimeOf(ps: Pass, kind: Kind): real {
    if kind >= PTE_IDLE then IDLE else ps.loop as real + 0.5
  }

  /** `nr` pages in a row from `addr` on. */
  function Row(ps: Pass, addr: nat, kind: Kind, nr: nat): (r: seq<Report>)
    ensures |r| == nr
    ensures forall k :: 0 <= k < nr ==> r[k] == Report(addr + k * SizeOf(ps.shift, TypeOf(kind)), TypeOf(kind), TimeOf(ps, kind))
  {
    seq(nr, k requires 0 <= k < nr => Report(addr + k * SizeOf(ps.shift, TypeOf(kind)), TypeOf(kind), TimeOf(ps, kind)))
  }

  /** `record_parse_result`: nothing for an address that is not aligned to its page size. */
  function Recorded(ps: Pass, addr: nat, kind: Kind, nr: nat): seq<Report> {
    if addr % SizeOf(ps.shift, TypeOf(kind)) != 0 then [] else Row(ps, addr, kind, nr)
  }

  /** The reports of one run: a block of idle small pages stands for 512 pages each, holes for none. */
  function RunReports(ps: Pass, addr: nat, kind: Kind, nr: nat): seq<Report> {
    if kind == PMD_IDLE_PTES then Recorded(ps, addr, PTE_IDLE, nr * PTES_PER_PMD)
    else if kind < PMD_IDLE_PTES then Recorded(ps, addr, kind, nr)
    else []
  }

  function After(ps: Pass, addr: nat, kind: Kind, nr: nat): nat {
    addr + nr * SizeOf(ps.shift, TypeOf(kind))
  }

  datatype Item = SetAddress(addr: nat) | Run(kind: Kind, nr: nat)

  datatype Outcome = Failed(reps: seq<Report>) | Walked(reps: seq<Report>, end: nat)

  function Prepend(reps: seq<Report>, o: Outcome): Outcome {
    o.(reps := reps + o.reps)
  }

  /** What a stream of items means, from the current address on; a run before any address is an error. */
  function Meaning(ps: Pass, items: seq<Item>, addr: nat): Outcome
    decreases |items|
  {
    if items == [] then Walked([], addr)
    else match items[0]
      case SetAddress(a) => Meaning(ps, items[1..], a)
      case Run(kind, nr) =>
        if addr == 0 then Failed([])
        else Prepend(RunReports(ps, addr, kind, nr), Meaning(ps, items[1..], After(ps, addr, kind, nr)))
  }

  // ----- bytes

  /** `get_address_from_buf`: eight bytes, the most significant first. */
  function AddressAt(buf: seq<Byte>, i: nat): (a: nat)
    requires i + 8 < |buf|
  {
    var b := (k: nat) requires i + k < |buf| => buf[i + k] as int;
    b(1) * 0x100_0000_0000_0000 + b(2) * 0x1_0000_0000_0000 + b(3) * 0x100_0000_0000
    + b(4) * 0x1_0000_0000 + b(5) * 0x100_0000 + b(6) * 0x1_0000 + b(7) * 0x100 + b(8)
  }

  /** Every byte that reports a run has a kind the kernel defines. */
  predicate Legible(buf: seq<Byte>, i: nat)
    decreases |buf| - i
  {
    if i >= |buf| then true
    else if buf[i] == SET_HVA then Legible(buf, i + 9)
    else buf[i] / 16 <= 9 && Legible(buf, i + 1)
  }

  /** The items of a buffer; an address cut off at the end of the buffer ends it. */
  function Items(buf: seq<Byte>, i: nat): seq<Item>
    requires Legible(buf, i)
    decreases |buf| - i
  {
    if i >= |buf| then []
    else if buf[i] == SET_HVA then
      if i + 8 >= |buf| then [] else [SetAddress(AddressAt(buf, i))] + Items(buf, i + 9)
    else [Run(buf[i] / 16, buf[i] % 16)] + Items(buf, i + 1)
  }

  /** `parse_vma_result`: enter what a buffer reports into the list, from the cursor on. */
  method ParseVma(list: PageList, ps: Pass, buf: seq<Byte>, from: nat) returns (ok: bool, cursor: nat, end: nat)
    requires from <= |list.recs| && Legible(buf, 0)
    modifies list
    ensures var o := Meaning(ps, Items(buf, 0), 0);
      && (ok <==> o.Walked?) && (ok ==> end == o.end)
      && (list.recs, cursor) == CursorRun(list.f, old(list.recs), from, o.reps)
  {
    hide Meaning;
    hide Items;
    hide Legible;
    hide CursorRun;
    hide RunReports;
    hide SizeOf;
    hide AddressAt;
    var i: nat, address: nat := 0, 0;
    cursor, ok, end := from, true, 0;
    ghost var all := Meaning(ps, Items(buf, 0), 0);
    ghost var done: seq<Report> := [];
    NoReports(list.f, list.recs, from);
    while i < |buf|
      invariant 0 <= i && Legible(buf, i) && cursor <= |list.recs|
      invariant (list.recs, cursor) == CursorRun(list.f, old(list.recs), from, done)
      invariant all == Prepend(done, Meaning(ps, Items(buf, i), address))
      invariant ok
      decreases |buf| - i
    {
      ItemsStep(ps, buf, i, address);
      if buf[i] == SET_HVA {
        if i + 8 >= |buf| {
          break;
        }
        address := AddressAt(buf, i);
        i := i + 9;
        continue;
      }
      if address == 0 {
        ok := false;
        assert done + [] == done;
        return;
      }
      var nr: nat := buf[i] % 16;
      var kind: Kind := buf[i] / 16;
      ghost var reps := RunReports(ps, address, kind, nr);
      CursorRunAppend(list.f, old(list.recs), from, done, reps);
      PrependTwice(done, reps, Meaning(ps, Items(buf, i + 1), After(ps, address, kind, nr)));
      if kind <= PMD_IDLE_PTES {
        cursor := RecordRun(list, ps, address, kind, nr, cursor);
      } else {
        NoReports(list.f, list.recs, cursor);
        HolesReportNothing(ps, address, kind, nr);
      }
      done := done + reps;
      address := After(ps, address, kind, nr);
      i := i + 1;
    }
    ItemsEnd(ps, buf, i, address);
    assert done + [] == done;
    end := address;
  }

  lemma NoReports(f: Maths, recs: seq<PageRec>, from: nat)
    requires from <= |recs|
    ensures CursorRun(f, recs, from, []) == (recs, from)
  {
  }

  lemma HolesReportNothing(ps: Pass, addr: nat, kind: Kind, nr: nat)
    requires kind > PMD_IDLE_PTES
    ensures RunReports(ps, addr, kind, nr) == []
  {
  }

  /** The two branches of `parse_vma_result` that record pages. */
  method RecordRun(list: PageList, ps: Pass, addr: nat, kind: Kind, nr: nat, from: nat) returns (cursor: nat)
    requires from <= |list.recs| && kind <= PMD_IDLE_PTES
    modifies list
    ensures (list.recs, cursor) == CursorRun(list.f, old(list.recs), from, RunReports(ps, addr, kind, nr))
  {
    hide CursorRun;
    hide Recorded;
    if kind == PMD_IDLE_PTES {
      cursor := Record(list, ps, addr, PTE_IDLE, nr * PTES_PER_PMD, from);
    } else {
      cursor := Record(list, ps, addr, kind, nr, from);
    }
  }

  lemma ItemsStep(ps: Pass, buf: seq<Byte>, i: nat, address: nat)
    requires i < |buf| && Legible(buf, i)
    ensures buf[i] == SET_HVA && i + 8 < |buf| ==>
      Legible(buf, i + 9) && Meaning(ps, Items(buf, i), address) == Meaning(ps, Items(buf, i + 9), AddressAt(buf, i))
    ensures buf[i] == SET_HVA && i + 8 >= |buf| ==> Meaning(ps, Items(buf, i), address) == Walked([], address)
    ensures buf[i] != SET_HVA ==>
      && buf[i] / 16 <= 9 && Legible(buf, i + 1)
      && Meaning(ps, Items(buf, i), address)
         == if address == 0 then Failed([])
            else Prepend(RunReports(ps, address, buf[i] / 16, buf[i] % 16),
                         Meaning(ps, Items(buf, i + 1), After(ps, address, buf[i] / 16, buf[i] % 16)))
  {
    hide RunReports;
  }

  lemma ItemsEnd(ps: Pass, buf: seq<Byte>, i: nat, address: nat)
    requires Legible(buf, i)
    ensures i >= |buf| || (buf[i] == SET_HVA && i + 8 >= |buf|) ==> Meaning(ps, Items(buf, i), address) == Walked([], address)
  {
  }

  lemma PrependTwice(a: seq<Report>, b: seq<Report>, o: Outcome)
    ensures Prepend(a, Prepend(b, o)) == Prepend(a + b, o)
  {
    assert a + (b + o.reps) == (a + b) + o.reps;
  }

  /** `record_parse_result`. */
  method Record(list: PageList, ps: Pass, addr: nat, kind: Kind, nr: nat, from: nat) returns (cursor: nat)
    requires from <= |list.recs|
    modifies list
    ensures (list.recs, cursor) == CursorRun(list.f, old(list.recs), from, Recorded(ps, addr, kind, nr))
  {
    hide Entered;
    hide Pos;
    hide CursorRun;
    hide SizeOf;
    cursor := from;
    NoReports(list.f, list.recs, from);
    var size := SizeOf(ps.shift, TypeOf(kind));
    if addr % size != 0 {
      return;
    }
    var at := addr;
    ghost var row := Row(ps, addr, kind, nr);
    for k := 0 to nr
      invariant cursor <= |list.recs| && at == addr + k * size
      invariant (list.recs, cursor) == CursorRun(list.f, old(list.recs), from, row[..k])
    {
      var time := if kind >= PTE_IDLE then IDLE else ps.loop as real + 0.5;
      assert row[k] == Report(at, TypeOf(kind), time);
      RunStep(list.f, old(list.recs), from, row, k);
      cursor := list.Update(Report(at, TypeOf(kind), time), cursor);
      at := at + size;
    }
    assert row[..nr] == row;
  }

  lemma RunStep(f: Maths, recs: seq<PageRec>, from: nat, row: seq<Report>, k: nat)
    requires from <= |recs| && k < |row|
    ensures var r := CursorRun(f, recs, from, row[..k]);
      CursorRun(f, recs, from, row[..k + 1]) == (Entered(f, r.0, r.1, row[k]), Pos(r.0, r.1, row[k].addr) + 1)
  {
    hide Entered;
    hide Pos;
    assert row[..k + 1][..k] == row[..k];
  }

  // ----- bytes and items

  const U64 := 0x1_0000_0000_0000_0000

  predicate Valid(it: Item) {
    if it.SetAddress? then it.addr < U64 else it.nr < 16
  }

  /** The last `n` base-256 digits of `a`, the most significant first. */
  function Digits(a: nat, n: nat): (bs: seq<Byte>)
    ensures |bs| == n
  {
    if n == 0 then [] else Digits(a / 256, n - 1) + [a % 256]
  }

  function BigEndian(a: nat): (bs: seq<Byte>)
    ensures |bs| == 8
  {
    Digits(a, 8)
  }

  /** The bytes the kernel writes for an item. */
  function Encode(it: Item): (bs: seq<Byte>)
    requires Valid(it)
  {
    match it
    case SetAddress(a) => [SET_HVA] + BigEndian(a)
    case Run(kind, nr) => [kind * 16 + nr]
  }

  function EncodeAll(items: seq<Item>): seq<Byte>
    requires forall i :: 0 <= i < |items| ==> Valid(items[i])
  {
    if items == [] then [] else Encode(items[0]) + EncodeAll(items[1..])
  }

  function Value(bs: seq<Byte>): nat {
    if bs == [] then 0 else 256 * Value(bs[..|bs| - 1]) + bs[|bs| - 1] as int
  }

  function Pow256(n: nat): nat {
    if n == 0 then 1 else 256 * Pow256(n - 1)
  }

  lemma {:induction false} DigitsValue(a: nat, n: nat)
    requires a < Pow256(n)
    ensures Value(Digits(a, n)) == a
    decreases n
  {
    if n > 0 {
      DigitsValue(a / 256, n - 1);
      var bs := Digits(a, n);
      assert bs[..n - 1] == Digits(a / 256, n - 1);
    }
  }

  lemma ValueStep(bs: seq<Byte>, n: nat)
    requires n < |bs|
    ensures Value(bs[..n + 1]) == 256 * Value(bs[..n]) + bs[n] as int
  {
    assert bs[..n + 1][..n] == bs[..n];
  }

  lemma AddressIsValue(buf: seq<Byte>, i: nat)
    requires i + 8 < |buf|
    ensures AddressAt(buf, i) == Value(buf[i + 1..i + 9])
  {
    hide Value;
    var bs := buf[i + 1..i + 9];
    assert bs[..0] == [] && bs[..8] == bs;
    ValueStep(bs, 0);
    ValueStep(bs, 1);
    ValueStep(bs, 2);
    ValueStep(bs, 3);
    ValueStep(bs, 4);
    ValueStep(bs, 5);
    ValueStep(bs, 6);
    ValueStep(bs, 7);
    NoDigits();
  }

  lemma NoDigits()
    ensures Value([]) == 0
  {
  }

  lemma BigEndianValue(a: nat, buf: seq<Byte>, i: nat)
    requires a < U64 && i + 8 < |buf| && buf[i + 1..i + 9] == BigEndian(a)
    ensures AddressAt(buf, i) == a
  {
    assert Pow256(4) == 0x1_0000_0000;
    assert Pow256(8) == U64;
    AddressIsValue(buf, i);
    DigitsValue(a, 8);
  }

  lemma Nibbles(kind: Kind, nr: nat)
    requires nr < 16
    ensures var b := kind * 16 + nr; 0 <= b < 256 && b / 16 == kind && b % 16 == nr && b != SET_HVA
  {
  }

  lemma AddressRead(buf: seq<Byte>, i: nat, a: nat)
    requires a < U64 && i + 9 <= |buf| && buf[i] == SET_HVA && buf[i + 1..i + 9] == BigEndian(a) && Legible(buf, i + 9)
    ensures Legible(buf, i) && Items(buf, i) == [SetAddress(a)] + Items(buf, i + 9)
  {
    hide AddressAt;
    hide BigEndian;
    BigEndianValue(a, buf, i);
  }

  lemma RunRead(buf: seq<Byte>, i: nat, kind: Kind, nr: nat)
    requires i < |buf| && buf[i] != SET_HVA && buf[i] / 16 == kind && buf[i] % 16 == nr && Legible(buf, i + 1)
    ensures Legible(buf, i) && Items(buf, i) == [Run(kind, nr)] + Items(buf, i + 1)
  {
    hide AddressAt;
  }

  lemma ItemRead(buf: seq<Byte>, i: nat, it: Item)
    requires Valid(it) && i + |Encode(it)| <= |buf| && buf[i..i + |Encode(it)|] == Encode(it)
    requires Legible(buf, i + |Encode(it)|)
    ensures Legible(buf, i) && Items(buf, i) == [it] + Items(buf, i + |Encode(it)|)
  {
    hide BigEndian;
    hide Legible;
    hide Items;
    var bs := buf[i..i + |Encode(it)|];
    assert bs[0] == buf[i];
    if it.SetAddress? {
      assert buf[i + 1..i + 9] == bs[1..] == BigEndian(it.addr);
      AddressRead(buf, i, it.addr);
    } else {
      Nibbles(it.kind, it.nr);
      RunRead(buf, i, it.kind, it.nr);
    }
  }

  lemma {:induction false} ItemsOf(pre: seq<Byte>, items: seq<Item>)
    requires forall i :: 0 <= i < |items| ==> Valid(items[i])
    ensures var buf := pre + EncodeAll(items); Legible(buf, |pre|) && Items(buf, |pre|) == items
    decreases |items|
  {
    hide Encode;
    hide Items;
    hide Legible;
    var buf := pre + EncodeAll(items);
    if items == [] {
      NothingLeft(buf);
    } else {
      var head := Encode(items[0]);
      assert buf == (pre + head) + EncodeAll(items[1..]);
      ItemsOf(pre + head, items[1..]);
      assert buf[|pre|..|pre| + |head|] == head;
      ItemRead(buf, |pre|, items[0]);
    }
  }

  lemma NothingLeft(buf: seq<Byte>)
    ensures Legible(buf, |buf|) && Items(buf, |buf|) == []
  {
  }

  /** Every stream of items is read back from its bytes. */
  lemma DecodeEncode(items: seq<Item>)
    requires forall i :: 0 <= i < |items| ==> Valid(items[i])
    ensures Legible(EncodeAll(items), 0) && Items(EncodeAll(items), 0) == items
  {
    ItemsOf([], items);
    assert [] + EncodeAll(items) == EncodeAll(items);
  }

  // ----- what a run reports

  lemma {:induction false} PowAdd(a: nat, b: nat)
    ensures Pow2(a + b) == Pow2(a) * Pow2(b)
  {
    if a > 0 {
      PowAdd(a - 1, b);
    }
  }

  lemma {:induction false} PowOrder(a: nat, b: nat)
    requires a < b
    ensures Pow2(a) < Pow2(b)
    decreases b
  {
    if a < b - 1 {
      PowOrder(a, b - 1);
    }
  }

  /** 512 small pages make up one block exactly for 4 KB base pages, and never more than a block. */
  lemma BlockSize(shift: Shift)
    ensures PTES_PER_PMD * SizeOf(shift, Pte) <= SizeOf(shift, Pmd)
    ensures PTES_PER_PMD * SizeOf(shift, Pte) == SizeOf(shift, Pmd) <==> shift == 12
  {
    assert Pow2(9) == 512 by {
      assert Pow2(3) == 8;
      PowAdd(3, 3);
      PowAdd(3, 6);
    }
    PowAdd(9, shift);
    var n: nat := (shift - 3) * 2 + 3;
    assert n == 9 + shift + (shift - 12);
    if shift > 12 {
      PowOrder(9 + shift, n);
    }
  }

  /** The recorded kind and number of pages of a run that is not a hole. */
  function PageKind(kind: Kind): Kind {
    if kind == PMD_IDLE_PTES then PTE_IDLE else kind
  }

  function PageCount(kind: Kind, nr: nat): nat {
    if kind == PMD_IDLE_PTES then nr * PTES_PER_PMD else nr
  }

  ghost predicate Covered(reps: seq<Report>, size: nat, x: nat) {
    exists k :: 0 <= k < |reps| && reps[k].addr <= x < reps[k].addr + size
  }

  lemma {:induction false} RowCovers(ps: Pass, addr: nat, kind: Kind, nr: nat, x: nat)
    ensures var size := SizeOf(ps.shift, TypeOf(kind));
      Covered(Row(ps, addr, kind, nr), size, x) <==> addr <= x < addr + nr * size
  {
    hide SizeOf;
    hide Covered;
    var size := SizeOf(ps.shift, TypeOf(kind));
    var row := Row(ps, addr, kind, nr);
    if nr == 0 {
      CoveredNone(size, x);
    } else {
      var less := Row(ps, addr, kind, nr - 1);
      RowCovers(ps, addr, kind, nr - 1, x);
      assert row == less + [row[nr - 1]];
      CoveredMore(less, row[nr - 1], size, x);
      NextMultiple(nr, size);
    }
  }

  lemma CoveredNone(size: nat, x: nat)
    ensures !Covered([], size, x)
  {
  }

  lemma CoveredMore(reps: seq<Report>, last: Report, size: nat, x: nat)
    ensures Covered(reps + [last], size, x) <==> Covered(reps, size, x) || last.addr <= x < last.addr + size
  {
    var more := reps + [last];
    assert more[|reps|] == last;
    if Covered(reps, size, x) {
      var k :| 0 <= k < |reps| && reps[k].addr <= x < reps[k].addr + size;
      assert more[k] == reps[k];
    }
  }

  lemma NextMultiple(n: nat, size: nat)
    requires n > 0
    ensures (n - 1) * size + size == n * size
  {
  }

  /** Where the pages of a run end, against where the address moves to. */
  lemma RunExtent(ps: Pass, addr: nat, kind: Kind, nr: nat)
    requires kind <= PMD_IDLE_PTES
    ensures var end := addr + PageCount(kind, nr) * SizeOf(ps.shift, TypeOf(PageKind(kind)));
      && end <= After(ps, addr, kind, nr)
      && (end == After(ps, addr, kind, nr) <==> kind != PMD_IDLE_PTES || nr == 0 || ps.shift == 12)
  {
    hide SizeOf;
    BlockSize(ps.shift);
    if kind == PMD_IDLE_PTES {
      var small, block := PTES_PER_PMD * SizeOf(ps.shift, Pte), SizeOf(ps.shift, Pmd);
      assert PageCount(kind, nr) * SizeOf(ps.shift, Pte) == nr * small;
      Multiples(nr, small, block);
    }
  }

  lemma Multiples(n: nat, a: nat, b: nat)
    requires a <= b
    ensures n * a <= n * b && (n * a == n * b <==> n == 0 || a == b)
  {
    if n > 0 && a < b {
      assert n * (b - a) > 0;
    }
  }

  /**
   An aligned run records exactly the pages between the address before and the address after it: always
   for plain runs, and for blocks of idle small pages exactly when base pages are 4 KB.
   */
  lemma RunTiles(ps: Pass, addr: nat, kind: Kind, nr: nat)
    requires kind <= PMD_IDLE_PTES && addr % SizeOf(ps.shift, TypeOf(PageKind(kind))) == 0
    ensures (forall x: nat :: Covered(RunReports(ps, addr, kind, nr), SizeOf(ps.shift, TypeOf(PageKind(kind))), x)
                         <==> addr <= x < After(ps, addr, kind, nr))
       <==> kind != PMD_IDLE_PTES || nr == 0 || ps.shift == 12
  {
    hide SizeOf;
    hide Covered;
    hide Row;
    var size := SizeOf(ps.shift, TypeOf(PageKind(kind)));
    var reps := RunReports(ps, addr, kind, nr);
    assert reps == Row(ps, addr, PageKind(kind), PageCount(kind, nr));
    var end := addr + PageCount(kind, nr) * size;
    forall x: nat
      ensures Covered(reps, size, x) <==> addr <= x < end
    {
      RowCovers(ps, addr, PageKind(kind), PageCount(kind, nr), x);
    }
    RunExtent(ps, addr, kind, nr);
    if end < After(ps, addr, kind, nr) {
      assert !Covered(reps, size, end);
    }
  }

  /** With 16 KB base pages one block of idle small pages leaves part of its range unrecorded. */
  lemma LargerBasePagesLeaveGaps(addr: nat)
    requires addr % SizeOf(14, Pte) == 0
    ensures !(forall x: nat :: Covered(RunReports(Pass(14, 0), addr, PMD_IDLE_PTES, 1), SizeOf(14, Pte), x)
                          <==> addr <= x < After(Pass(14, 0), addr, PMD_IDLE_PTES, 1))
  {
    hide RunReports;
    hide Covered;
    hide SizeOf;
    RunTiles(Pass(14, 0), addr, PMD_IDLE_PTES, 1);
  }

  // ----- a walk goes upwards

  /** No command byte sets the address back. */
  ghost predicate Forward(ps: Pass, items: seq<Item>, addr: nat)
    decreases |items|
  {
    items == [] ||
      match items[0]
      case SetAddress(a) => a >= addr && Forward(ps, items[1..], a)
      case Run(kind, nr) => Forward(ps, items[1..], After(ps, addr, kind, nr))
  }

  ghost predicate Within(reps: seq<Report>, lo: nat, hi: nat) {
    forall k :: 0 <= k < |reps| ==> lo <= reps[k].addr < hi
  }

  ghost predicate From(reps: seq<Report>, lo: nat) {
    forall k :: 0 <= k < |reps| ==> lo <= reps[k].addr
  }

  lemma RowAscends(ps: Pass, addr: nat, kind: Kind, nr: nat)
    ensures Ascending(Row(ps, addr, kind, nr)) && Within(Row(ps, addr, kind, nr), addr, addr + nr * SizeOf(ps.shift, TypeOf(kind)))
  {
    hide SizeOf;
    var size := SizeOf(ps.shift, TypeOf(kind));
    var row := Row(ps, addr, kind, nr);
    forall i, j | 0 <= i < j < nr
      ensures row[i].addr < row[j].addr
    {
      Further(i, j, size);
    }
    forall k | 0 <= k < nr
      ensures addr <= row[k].addr < addr + nr * size
    {
      Further(k, nr, size);
    }
  }

  lemma Further(i: nat, j: nat, size: nat)
    requires i < j
    ensures 0 <= i * size && i * size + size <= j * size
  {
    var d := j - i - 1;
    assert j * size == i * size + size + d * size;
  }

  lemma RunAscends(ps: Pass, addr: nat, kind: Kind, nr: nat)
    ensures var reps := RunReports(ps, addr, kind, nr); Ascending(reps) && Within(reps, addr, After(ps, addr, kind, nr))
    ensures addr <= After(ps, addr, kind, nr)
  {
    hide SizeOf;
    hide Row;
    if kind <= PMD_IDLE_PTES {
      RowAscends(ps, addr, PageKind(kind), PageCount(kind, nr));
      RunExtent(ps, addr, kind, nr);
    }
    assert nr * SizeOf(ps.shift, TypeOf(kind)) >= 0;
  }

  lemma AppendAscends(a: seq<Report>, b: seq<Report>, lo: nat, hi: nat)
    requires Ascending(a) && Within(a, lo, hi) && Ascending(b) && From(b, hi) && lo <= hi
    ensures Ascending(a + b) && From(a + b, lo)
  {
  }

  lemma {:induction false} WalkFrom(ps: Pass, items: seq<Item>, addr: nat)
    requires Forward(ps, items, addr)
    ensures var o := Meaning(ps, items, addr); Ascending(o.reps) && From(o.reps, addr)
    decreases |items|
  {
    hide RunReports;
    hide Ascending;
    if items == [] {
      NoneAscend();
    } else if items[0].SetAddress? {
      WalkFrom(ps, items[1..], items[0].addr);
    } else {
      var kind, nr := items[0].kind, items[0].nr;
      var next := After(ps, addr, kind, nr);
      WalkFrom(ps, items[1..], next);
      RunAscends(ps, addr, kind, nr);
      NoneAscend();
      AppendAscends(RunReports(ps, addr, kind, nr), Meaning(ps, items[1..], next).reps, addr, next);
    }
  }

  lemma NoneAscend()
    ensures Ascending([])
  {
  }

  /** A walk that never goes back reports every page once, in ascending order, and so the list after it
      is the one a search from the head would give, in strict address order. */
  lemma WalkMerges(f: Maths, ps: Pass, items: seq<Item>, recs: seq<PageRec>)
    requires Forward(ps, items, 0) && Sorted(recs)
    ensures var reps := Meaning(ps, items, 0).reps;
      && Ascending(reps) && CursorRun(f, recs, 0, reps).0 == HeadRun(f, recs, reps) && Sorted(HeadRun(f, recs, reps))
  {
    WalkFrom(ps, items, 0);
    CursorIsHead(f, recs, Meaning(ps, items, 0).reps);
  }
}
