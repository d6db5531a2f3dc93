/**
 What the three passes over one pair's ledger guarantee, for any figures and any demand:
 the quota is respected across all passes, and neither node of the pair is overfilled.
 */
module FlowSafety {
  import opened Pages
  import opened FlowControl

  /** A ledger as `init_flow_ctrl` leaves it. */
  ghost predicate Fresh(n: NodeCtrl) {
    && n.hotMove == n.prefetch == n.coldMove == Cap(0, 0)
    && n.coldReplaced == 0
    && 0 <= n.coldFree && 0 <= n.free && 0 <= n.cold && 0 <= n.quota && 0 <= n.reserve
  }

  /** A whole pass that is asked for `demand` bytes charges all of them, or the whole cap. */
  function RunPass(n: NodeCtrl, pass: Pass, demand: nat): NodeCtrl {
    var m := Cal(n, pass);
    var cap := CapOf(m, pass).cap;
    WithCap(m, pass, Cap(cap, Min(cap, demand)))
  }

  function AfterHot(n: NodeCtrl, a: nat): NodeCtrl { RunPass(n, HotMove, a) }

  function AfterPrefetch(n: NodeCtrl, a: nat, b: nat): NodeCtrl { RunPass(AfterHot(n, a), Prefetch, b) }

  function AfterCold(n: NodeCtrl, a: nat, b: nat, c: nat): NodeCtrl { RunPass(AfterPrefetch(n, a, b), ColdMove, c) }

  /** The first pass: its cap is within quota, room and replaceable cold bytes. */
  lemma HotPass(n: NodeCtrl, a: nat)
    requires Fresh(n)
    ensures var l := AfterHot(n, a); var u := UpdateHot(l);
      && 0 <= l.hotMove.used <= l.hotMove.cap
      && l.hotMove.cap <= n.free + n.cold && l.hotMove.cap <= n.free + n.coldFree && l.hotMove.cap <= n.quota
      && 0 <= u.quota && 0 <= u.free && u.coldReplaced == Max(0, l.hotMove.used - n.free)
      && u.quota == n.quota - l.hotMove.used - u.coldReplaced
  {
  }

  /** The prefetch pass leaves the reserve free and the quota non-negative. */
  lemma PrefetchPass(n: NodeCtrl, a: nat, b: nat)
    requires Fresh(n)
    ensures var u := UpdateHot(AfterHot(n, a)); var l := AfterPrefetch(n, a, b); var v := UpdatePrefetch(l);
      && 0 <= l.prefetch.used <= l.prefetch.cap
      && Min(u.free, n.reserve) <= v.free <= u.free
      && 0 <= v.quota == u.quota - l.prefetch.used
      && (0 < u.coldReplaced ==> l.prefetch.used == 0)
  {
    HotPass(n, a);
  }

  /** Over all three passes at most the configured quota is charged, although the cold bytes that make
      room for hot ones are paid for in the first pass and only spent in the third. */
  lemma QuotaSafe(n: NodeCtrl, a: nat, b: nat, c: nat)
    requires Fresh(n)
    ensures var l := AfterCold(n, a, b, c);
      && 0 <= l.coldMove.used <= l.coldMove.cap
      && l.hotMove.used + l.prefetch.used + l.coldMove.used <= n.quota
      && 0 <= l.quota
      && l.coldMove.cap <= l.quota + l.coldReplaced
  {
    HotPass(n, a);
    PrefetchPass(n, a, b);
  }

  // ----- the caps are not merely safe: they are as large as the rules allow

  /** What a pair starts a round with: free bytes of its hot and of its cold node, cold bytes of the hot
      node, the quota of the round, and the bytes of the hot node that prefetching leaves free. */
  datatype Room = Room(free: nat, coldFree: nat, cold: nat, quota: nat, reserve: nat)

  /** Of `u` bytes for the hot node, those that do not fit its free space take the place of cold ones. */
  function Replaced(room: Room, u: nat): nat {
    if u > room.free then u - room.free else 0
  }

  /** `u` bytes may move to the hot node: replaced bytes count against the quota a second time, there must
      be as many cold ones, and these need room on the cold node. */
  predicate HotMay(room: Room, u: nat) {
    var r := Replaced(room, u);
    u + r <= room.quota && r <= room.cold && r <= room.coldFree
  }

  /** After `u` hot bytes, `y` more may be prefetched: within the quota, and without using the reserve. */
  predicate PrefetchMay(room: Room, u: nat, y: nat) {
    var r := Replaced(room, u);
    y == 0 || (u + r + y <= room.quota && room.free - (u - r) - y >= room.reserve)
  }

  /** After `u` hot and `y` prefetched bytes, `z` cold bytes may leave the hot node: the replaced ones, and
      beyond them as many as the quota, the gap to the reserve and the room on the cold node allow. */
  predicate ColdMay(room: Room, u: nat, y: nat, z: nat) {
    var r := Replaced(room, u);
    var q := z - r;
    q <= 0 ||
      (u + r + y + q <= room.quota && room.free - (u - r) - y + q <= room.reserve && q <= room.coldFree + (u - r) + y)
  }

  /** `u` is the largest amount that is allowed and asked for; likewise `y` and `z`. */
  ghost predicate HotCharge(room: Room, demand: nat, u: nat) {
    u <= demand && HotMay(room, u) && forall m: nat :: m <= demand && HotMay(room, m) ==> m <= u
  }

  ghost predicate PrefetchCharge(room: Room, u: nat, demand: nat, y: nat) {
    y <= demand && PrefetchMay(room, u, y) && forall m: nat :: m <= demand && PrefetchMay(room, u, m) ==> m <= y
  }

  ghost predicate ColdCharge(room: Room, u: nat, y: nat, demand: nat, z: nat) {
    z <= demand && ColdMay(room, u, y, z) && forall m: nat :: m <= demand && ColdMay(room, u, y, m) ==> m <= z
  }

  function RoomOf(n: NodeCtrl): Room
    requires 0 <= n.free && 0 <= n.coldFree && 0 <= n.cold && 0 <= n.quota && 0 <= n.reserve
  {
    Room(n.free, n.coldFree, n.cold, n.quota, n.reserve)
  }

  lemma HotCapGreatest(n: NodeCtrl, m: nat)
    requires Fresh(n)
    ensures m <= CalHot(n).hotMove.cap <==> HotMay(RoomOf(n), m)
  {
  }

  /** What the ledger keeps after the hot pass and after prefetching, in terms of what it started with: the
      two nodes exchange free space, and the quota pays for every byte and again for every replaced one. */
  lemma Balance(n: NodeCtrl, a: nat, b: nat)
    requires Fresh(n)
    ensures 0 <= AfterHot(n, a).hotMove.used && 0 <= AfterPrefetch(n, a, b).prefetch.used
    ensures var u := AfterHot(n, a).hotMove.used; var y := AfterPrefetch(n, a, b).prefetch.used;
      var r := Replaced(RoomOf(n), u);
      var v := UpdatePrefetch(AfterPrefetch(n, a, b));
      && v.coldReplaced == r && v.quota == n.quota - u - r - y
      && v.free == n.free - (u - r) - y && v.coldFree == n.coldFree + (u - r) + y
      && v.reserve == n.reserve
  {
    HotPass(n, a);
    PrefetchPass(n, a, b);
  }

  lemma PrefetchCapGreatest(n: NodeCtrl, a: nat, p: nat)
    requires Fresh(n)
    ensures 0 <= AfterHot(n, a).hotMove.used
    ensures p <= AfterPrefetch(n, a, 0).prefetch.cap <==> PrefetchMay(RoomOf(n), AfterHot(n, a).hotMove.used, p)
  {
    HotPass(n, a);
    PrefetchPass(n, a, 0);
  }

  lemma ColdCapGreatest(n: NodeCtrl, a: nat, b: nat, q: nat)
    requires Fresh(n)
    ensures 0 <= AfterHot(n, a).hotMove.used && 0 <= AfterPrefetch(n, a, b).prefetch.used
    ensures (q <= AfterCold(n, a, b, 0).coldMove.cap)
       <==> ColdMay(RoomOf(n), AfterHot(n, a).hotMove.used, AfterPrefetch(n, a, b).prefetch.used, q)
  {
    Balance(n, a, b);
    ColdCap(AfterPrefetch(n, a, b));
  }

  lemma ColdCap(l: NodeCtrl)
    ensures var v := UpdatePrefetch(l);
      RunPass(l, ColdMove, 0).coldMove.cap == Max(0, Min(Min(v.quota, v.reserve - v.free), v.coldFree)) + v.coldReplaced
  {
  }

  /** Each pass charges the largest amount that is allowed after the passes before it and asked for. */
  lemma ChargesGreatest(n: NodeCtrl, a: nat, b: nat, c: nat)
    requires Fresh(n)
    ensures var l := AfterCold(n, a, b, c); var u, y, z := l.hotMove.used, l.prefetch.used, l.coldMove.used;
      && 0 <= u == Min(l.hotMove.cap, a) && 0 <= y == Min(l.prefetch.cap, b) && 0 <= z == Min(l.coldMove.cap, c)
      && HotCharge(RoomOf(n), a, u) && PrefetchCharge(RoomOf(n), u, b, y) && ColdCharge(RoomOf(n), u, y, c, z)
  {
    HotPass(n, a);
    PrefetchPass(n, a, b);
    QuotaSafe(n, a, b, c);
    var l := AfterCold(n, a, b, c);
    var u, y := AfterHot(n, a).hotMove.used, AfterPrefetch(n, a, b).prefetch.used;
    SameCaps(n, a, b, c);
    hide AfterCold;
    hide AfterPrefetch;
    hide AfterHot;
    hide HotMay;
    hide PrefetchMay;
    hide ColdMay;
    hide CalHot;
    forall m: nat
      ensures m <= l.hotMove.cap <==> HotMay(RoomOf(n), m)
      ensures m <= l.prefetch.cap <==> PrefetchMay(RoomOf(n), u, m)
      ensures m <= l.coldMove.cap <==> ColdMay(RoomOf(n), u, y, m)
    {
      HotCapGreatest(n, m);
      PrefetchCapGreatest(n, a, m);
      ColdCapGreatest(n, a, b, m);
    }
  }

  lemma SameCaps(n: NodeCtrl, a: nat, b: nat, c: nat)
    ensures var l := AfterCold(n, a, b, c);
      && l.hotMove == AfterHot(n, a).hotMove && l.hotMove.cap == CalHot(n).hotMove.cap
      && l.prefetch == AfterPrefetch(n, a, b).prefetch && l.prefetch.cap == AfterPrefetch(n, a, 0).prefetch.cap
      && l.coldMove.cap == AfterCold(n, a, b, 0).coldMove.cap
      && l.hotMove.used == Min(l.hotMove.cap, a) && l.prefetch.used == Min(l.prefetch.cap, b)
      && l.coldMove.used == Min(l.coldMove.cap, c)
  {
  }

  // ----- whole pages of one size

  ghost predicate Uniform(s: seq<PageRef>, size: nat) {
    forall i :: 0 <= i < |s| ==> s[i].size == size
  }

  lemma {:induction false} UniformTotal(s: seq<PageRef>, size: nat)
    requires Uniform(s, size)
    ensures Total(s) == size * |s|
  {
    if s != [] {
      UniformTotal(s[1..], size);
      assert size * |s| == size * |s[1..]| + size;
    }
  }

  ghost predicate Whole(size: nat, bytes: int) {
    exists m: nat :: bytes == size * m
  }

  lemma WholeSum(size: nat, x: int, y: int)
    requires Whole(size, x) && Whole(size, y)
    ensures Whole(size, x + y)
  {
    var m: nat :| x == size * m;
    var k: nat :| y == size * k;
    assert x + y == size * (m + k);
  }

  lemma {:induction false} MulOrder(size: nat, m: nat, k: nat)
    ensures m <= k ==> size * m <= size * k
    ensures m > k ==> size * m >= size * k + size
  {
    if m > k {
      var d := m - k - 1;
      assert size * m == size * k + size + size * d;
    } else {
      var d := k - m;
      assert size * k == size * m + size * d;
    }
  }

  /** Amounts of whole pages cannot differ by less than a page. */
  lemma WholeGap(size: nat, x: int, y: int)
    requires Whole(size, x) && Whole(size, y) && x < y + size
    ensures x <= y
  {
    var m: nat :| x == size * m;
    var k: nat :| y == size * k;
    MulOrder(size, m, k);
  }

  // ----- what moves, in whole pages

  /** Bytes that move when `k` pages are offered to a cap: pages are migrated whole. */
  function Moved(k: nat, size: nat, cap: int): nat
    requires size > 0
  {
    if cap < 0 then 0 else size * (if k < cap / size then k else cap / size)
  }

  /** `x` is the largest amount of whole pages within both the budget and the pages there are. */
  ghost predicate Filled(x: nat, size: nat, budget: int, total: nat) {
    && Whole(size, x) && x <= budget && x <= total
    && (if total <= budget then x == total else budget < x + size)
  }

  lemma MovedFills(k: nat, size: nat, cap: nat)
    requires size > 0
    ensures Filled(Moved(k, size, cap), size, cap, size * k)
  {
    hide Whole;
    var q := cap / size;
    assert cap == size * q + cap % size;
    MulOrder(size, q, k);
    MulOrder(size, k, q);
    WholeTimes(size, if k < q then k else q);
  }

  lemma MovedIs(k: nat, size: nat, cap: nat, j: nat)
    requires size > 0 && size * j <= cap < size * j + size && j <= k
    ensures Moved(k, size, cap) == size * j
  {
    var q := cap / size;
    assert cap == size * q + cap % size;
    MulOrder(size, q, j);
    MulOrder(size, j, q);
    assert q == j;
  }

  /** For pages of one size the longest fitting prefix is as many whole pages as fit. */
  lemma UniformMoved(s: seq<PageRef>, size: nat, cap: nat)
    requires size > 0 && Uniform(s, size)
    ensures Total(Fit(s, cap)) == Moved(|s|, size, cap) && Total(s) == size * |s|
  {
    hide Total;
    hide FitLen;
    hide Moved;
    var m := FitLen(s, cap);
    UniformTotal(s, size);
    UniformTotal(Fit(s, cap), size);
    FitIsLongest(s, cap, m);
    if m < |s| {
      FitIsLongest(s, cap, m + 1);
      UniformTotal(s[..m + 1], size);
      OneMore(size, m);
      MovedIs(|s|, size, cap, m);
    } else {
      assert Fit(s, cap) == s;
      MovedAll(m, size, cap);
    }
  }

  lemma OneMore(size: nat, m: nat)
    ensures size * (m + 1) == size * m + size
  {
  }

  lemma MovedAll(k: nat, size: nat, cap: nat)
    requires size > 0 && size * k <= cap
    ensures Moved(k, size, cap) == size * k
  {
    var q := cap / size;
    assert cap == size * q + cap % size;
    MulOrder(size, k, q);
    MulOrder(size, q, k);
  }

  // ----- neither node overfills

  /** Offered `ka` hot, `kb` prefetchable and `kc` cold pages: what arrives at a node, less what leaves
      it, fits into what was free there. */
  ghost predicate Fits(n: NodeCtrl, ka: nat, kb: nat, kc: nat, size: nat)
    requires size > 0
  {
    var l := AfterCold(n, size * ka, size * kb, size * kc);
    var toHot := Moved(ka, size, l.hotMove.cap) + Moved(kb, size, l.prefetch.cap);
    var toCold := Moved(kc, size, l.coldMove.cap);
    toHot - toCold <= n.free && toCold - toHot <= n.coldFree
  }

  /** The free space of the two nodes holds whole pages, or hardly anything beside them. */
  predicate RoomFits(free: nat, coldFree: nat, size: nat)
    requires size > 0
  {
    (free % size == 0 && coldFree % size == 0) || free % size + 2 * coldFree < size
  }

  /** Hot bytes replace cold ones: at least that many cold bytes leave the hot node. */
  lemma Replacing(n: NodeCtrl, l: NodeCtrl, size: nat, x: nat, z: nat, tc: nat)
    requires Whole(size, n.free) && Whole(size, n.coldFree) && Whole(size, x) && Whole(size, z) && n.cold <= tc
    requires n.free < l.hotMove.used <= l.hotMove.cap <= n.free + n.cold
    requires x <= l.hotMove.used && l.hotMove.used - n.free <= l.coldMove.cap
    requires x == l.hotMove.used || l.hotMove.used < x + size
    requires z <= l.coldMove.cap <= n.coldFree + l.hotMove.used
    requires z == tc || l.coldMove.cap < z + size
    ensures x - z <= n.free
    ensures z - x <= n.coldFree
  {
    hide Whole;
    WholeSum(size, n.free, z);
    WholeSum(size, n.coldFree, x);
    if z != tc {
      WholeGap(size, x, n.free + z);
    }
    if z > n.coldFree + x {
      WholeGap(size, z, n.coldFree + x);
    }
  }

  /** No replacement: everything that arrives at the hot node fits into its free space, and cold pages
      only go where the ledger saw room. When cold pages move at all, quota is left, so the hot pass was
      not cut short by the quota, and hot space is below the reserve, so neither was the prefetch pass. */
  lemma NotReplacing(n: NodeCtrl, ta: nat, tb: nat, tc: nat, x: nat, y: nat, z: nat)
    requires Fresh(n) && AfterHot(n, ta).hotMove.used <= n.free
    requires var l := AfterCold(n, ta, tb, tc);
      && x <= l.hotMove.used && (x == ta || l.hotMove.used == l.hotMove.cap)
      && (l.hotMove.used == n.free ==> x == n.free)
      && y <= l.prefetch.used && (y == tb || l.prefetch.used == l.prefetch.cap)
      && z <= l.coldMove.cap
    ensures x + y - z <= n.free
    ensures z - x - y <= n.coldFree
  {
    HotPass(n, ta);
    PrefetchPass(n, ta, tb);
  }

  /** What the caps of a whole round are, as far as the occupancy depends on them. */
  lemma RoundCaps(n: NodeCtrl, ta: nat, tb: nat, tc: nat)
    requires Fresh(n)
    ensures var l := AfterCold(n, ta, tb, tc); var u := l.hotMove.used;
      && u == Min(l.hotMove.cap, ta) && 0 <= u && l.hotMove.cap <= n.free + n.cold && l.hotMove.cap <= n.free + n.coldFree
      && l == AfterCold(n, ta, tb, tc) && AfterHot(n, ta).hotMove == l.hotMove
      && 0 <= l.prefetch.cap && l.prefetch.used == Min(l.prefetch.cap, tb) && 0 <= l.coldMove.cap
      && (u > n.free ==> l.prefetch.cap == 0 && u - n.free <= l.coldMove.cap <= n.coldFree + u)
      && (u <= n.free ==> u + l.prefetch.used <= n.free)
      && (u == n.free ==> l.prefetch.cap == 0 && l.coldMove.cap <= n.coldFree + n.free)
      && (u < n.free && u == l.hotMove.cap ==> l.coldMove.cap == 0)
  {
    HotPass(n, ta);
    PrefetchPass(n, ta, tb);
  }

  /** Whole pages free on both nodes. */
  lemma WholeRoom(n: NodeCtrl, ta: nat, tb: nat, tc: nat, size: nat, x: nat, y: nat, z: nat)
    requires Fresh(n) && Whole(size, n.free) && Whole(size, n.coldFree) && n.cold <= tc
    requires var l := AfterCold(n, ta, tb, tc);
      Filled(x, size, l.hotMove.cap, ta) && Filled(y, size, l.prefetch.cap, tb) && Filled(z, size, l.coldMove.cap, tc)
    ensures x + y - z <= n.free && z - x - y <= n.coldFree
  {
    hide Whole;
    hide AfterCold;
    var l := AfterCold(n, ta, tb, tc);
    RoundCaps(n, ta, tb, tc);
    if l.hotMove.used > n.free {
      Replacing(n, l, size, x, z, tc);
    } else {
      if n.free < x + size {
        WholeGap(size, n.free, x);
      }
      NotReplacing(n, ta, tb, tc, x, y, z);
    }
  }

  /** So little beside whole pages that no further page can arrive on either node. */
  lemma LittleRoom(n: NodeCtrl, ta: nat, tb: nat, tc: nat, size: nat, x: nat, y: nat, z: nat, q: nat, rest: nat)
    requires Fresh(n) && n.free == size * q + rest && rest + 2 * n.coldFree < size
    requires var l := AfterCold(n, ta, tb, tc);
      Filled(x, size, l.hotMove.cap, ta) && Filled(y, size, l.prefetch.cap, tb) && Filled(z, size, l.coldMove.cap, tc)
    ensures x + y - z <= n.free && z - x - y <= n.coldFree
  {
    hide Whole;
    hide AfterCold;
    var l := AfterCold(n, ta, tb, tc);
    var u, floor := l.hotMove.used, size * q;
    RoundCaps(n, ta, tb, tc);
    assert Whole(size, floor) by { WholeTimes(size, q); }
    if u >= n.free && x != u {
      WholeGap(size, floor, x);
    }
    if u > n.free {
      WholeGap(size, x, floor);
      WholeGap(size, z, floor);
    } else if x == u || u < n.free {
      if l.coldMove.cap > 0 {
        NotReplacing(n, ta, tb, tc, x, y, z);
      }
    } else {
      WholeGap(size, z, floor);
    }
  }

  lemma WholeTimes(size: nat, q: nat)
    ensures Whole(size, size * q)
  {
  }

  lemma Divides(size: nat, v: nat)
    requires size > 0
    ensures v == size * (v / size) + v % size
    ensures v % size == 0 ==> Whole(size, v)
  {
    WholeTimes(size, v / size);
  }

  lemma RoomCases(free: nat, coldFree: nat, size: nat) returns (q: nat, rest: nat)
    requires size > 0 && RoomFits(free, coldFree, size)
    ensures free == size * q + rest
    ensures (Whole(size, free) && Whole(size, coldFree)) || rest + 2 * coldFree < size
  {
    hide Whole;
    Divides(size, free);
    Divides(size, coldFree);
    q, rest := free / size, free % size;
  }

  /** With room that fits, neither node overfills, whatever quota, reserve and pages there are. */
  lemma RoomSuffices(n: NodeCtrl, ka: nat, kb: nat, kc: nat, size: nat)
    requires Fresh(n) && size > 0 && RoomFits(n.free, n.coldFree, size) && n.cold <= size * kc
    ensures Fits(n, ka, kb, kc, size)
  {
    hide AfterCold;
    hide Moved;
    hide Filled;
    hide Whole;
    hide RoomFits;
    var ta, tb, tc := size * ka, size * kb, size * kc;
    var l := AfterCold(n, ta, tb, tc);
    RoundCaps(n, ta, tb, tc);
    MovedFills(ka, size, l.hotMove.cap);
    MovedFills(kb, size, l.prefetch.cap);
    MovedFills(kc, size, l.coldMove.cap);
    var x, y, z := Moved(ka, size, l.hotMove.cap), Moved(kb, size, l.prefetch.cap), Moved(kc, size, l.coldMove.cap);
    var q, rest := RoomCases(n.free, n.coldFree, size);
    if Whole(size, n.free) && Whole(size, n.coldFree) {
      WholeRoom(n, ta, tb, tc, size, x, y, z);
    } else {
      LittleRoom(n, ta, tb, tc, size, x, y, z, q, rest);
    }
  }

  /** The same on lists of pages. */
  lemma NoOverfill(n: NodeCtrl, a: seq<PageRef>, b: seq<PageRef>, c: seq<PageRef>, size: nat)
    requires Fresh(n) && size > 0 && RoomFits(n.free, n.coldFree, size)
    requires Uniform(a, size) && Uniform(b, size) && Uniform(c, size)
    requires n.cold <= Total(c)
    ensures var l := AfterCold(n, Total(a), Total(b), Total(c));
      var toHot := Total(Fit(a, l.hotMove.cap)) + Total(Fit(b, l.prefetch.cap));
      var toCold := Total(Fit(c, l.coldMove.cap));
      && toHot - toCold <= n.free
      && toCold - toHot <= n.coldFree
  {
    hide Total;
    hide AfterCold;
    hide Moved;
    hide RoomFits;
    hide Fit;
    RoundCaps(n, Total(a), Total(b), Total(c));
    var l := AfterCold(n, Total(a), Total(b), Total(c));
    UniformMoved(a, size, l.hotMove.cap);
    UniformMoved(b, size, l.prefetch.cap);
    UniformMoved(c, size, l.coldMove.cap);
    RoomSuffices(n, |a|, |b|, |c|, size);
  }

  // ----- and without such room they can

  function Ledger(coldFree: nat, free: nat, cold: nat, quota: nat, reserve: nat): NodeCtrl {
    NodeCtrl(Cap(0, 0), Cap(0, 0), Cap(0, 0), 0, coldFree, free, cold, quota, reserve)
  }

  /** The ledger of a round whose hot pass replaces `t` cold bytes and uses its cap up; `extra` is left of
      the quota and asked for by the reserve. */
  lemma ReplacingLedger(free: nat, coldFree: nat, t: nat, extra: nat, ta: nat, tc: nat)
    requires 0 < t <= coldFree && extra <= coldFree + free && free + t <= ta
    ensures var n := Ledger(coldFree, free, t, free + 2 * t + extra, extra); var l := AfterCold(n, ta, 0, tc);
      Fresh(n) && l.hotMove.cap == free + t && l.prefetch.cap == 0 && l.coldMove.cap == t + extra
  {
    var n := Ledger(coldFree, free, t, free + 2 * t + extra, extra);
    var h, p := AfterHot(n, ta), AfterPrefetch(n, ta, 0);
    hide RunPass;
    ReplacingHot(free, coldFree, t, extra, ta, h);
    ReplacingRest(free, coldFree, t, extra, h, p, tc, AfterCold(n, ta, 0, tc));
  }

  lemma ReplacingHot(free: nat, coldFree: nat, t: nat, extra: nat, ta: nat, h: NodeCtrl)
    requires 0 < t <= coldFree && free + t <= ta
    requires h == RunPass(Ledger(coldFree, free, t, free + 2 * t + extra, extra), HotMove, ta)
    ensures h == Ledger(coldFree, free, t, free + 2 * t + extra, extra).(hotMove := Cap(free + t, free + t))
  {
  }

  lemma ReplacingRest(free: nat, coldFree: nat, t: nat, extra: nat, h: NodeCtrl, p: NodeCtrl, tc: nat, l: NodeCtrl)
    requires 0 < t <= coldFree && extra <= coldFree + free
    requires h == Ledger(coldFree, free, t, free + 2 * t + extra, extra).(hotMove := Cap(free + t, free + t))
    requires p == RunPass(h, Prefetch, 0) && l == RunPass(p, ColdMove, tc)
    ensures l.hotMove == h.hotMove && l.prefetch.cap == 0 && l.coldMove.cap == t + extra
  {
  }

  /** A hot page is let in against replaced bytes for which no whole cold page leaves, however many cold
      pages there are. */
  lemma HotOverfills(size: nat, q: nat, rest: nat, coldFree: nat, kc: nat)
    requires 0 < rest < size && rest + coldFree >= size && 0 < kc
    ensures var n := Ledger(coldFree, size * q + rest, size - rest, size * q + rest + 2 * (size - rest), 0);
      Fresh(n) && n.cold <= size * kc && !Fits(n, q + 1, 0, kc, size)
  {
    hide AfterCold;
    hide Moved;
    var free, t := size * q + rest, size - rest;
    OneMore(size, q);
    assert free + t == size * (q + 1) && size * 0 == 0;
    MulOrder(size, 1, kc);
    ReplacingLedger(free, coldFree, t, 0, size * (q + 1), size * kc);
    MovedIs(q + 1, size, free + t, q + 1);
    MovedIs(kc, size, t, 0);
    MovedIs(0, size, 0, 0);
  }

  /** Cold pages are sent for hot bytes that were charged but did not make a whole page. */
  lemma ColdOverfills(size: nat, q: nat, rest: nat, e: nat, part: nat)
    requires 0 < part < size && rest + part < size && size - part - rest <= size * e + part
    ensures var free, coldFree, t := size * q + rest, size * e + part, size - part - rest;
      var n := Ledger(coldFree, free, t, free + 2 * t + (coldFree + free), coldFree + free);
      var k := free + t + coldFree;
      Fresh(n) && n.cold <= size * k && !Fits(n, k, 0, k, size)
  {
    hide AfterCold;
    hide Moved;
    var free, coldFree, t := size * q + rest, size * e + part, size - part - rest;
    var k := free + t + coldFree;
    AtLeast(size, k);
    assert size * 0 == 0;
    ReplacingLedger(free, coldFree, t, coldFree + free, size * k, size * k);
    AtLeast(size, q);
    AtLeast(size, e);
    MovedIs(k, size, free + t, q);
    MovedIs(0, size, 0, 0);
    Gathered(size, q, e);
    MovedIs(k, size, t + (coldFree + free), q + e + 1);
  }

  lemma AtLeast(size: nat, k: nat)
    requires size > 0
    ensures k <= size * k
  {
    var d := size - 1;
    assert size * k == k + d * k;
  }

  lemma Gathered(size: nat, q: nat, e: nat)
    ensures size * (q + e + 1) == size * q + size * e + size
  {
  }

  /** No node overfills with this room, whatever quota, reserve, cold figure and pages there are. */
  ghost predicate NeverOverfills(free: nat, coldFree: nat, size: nat)
    requires size > 0
  {
    forall n: NodeCtrl, ka: nat, kb: nat, kc: nat ::
      Fresh(n) && n.free == free && n.coldFree == coldFree && n.cold <= size * kc ==> Fits(n, ka, kb, kc, size)
  }

  /** For pages of one size, exactly the room that fits keeps both nodes from overfilling. */
  lemma OccupancyExact(free: nat, coldFree: nat, size: nat)
    requires size > 0
    ensures NeverOverfills(free, coldFree, size) <==> RoomFits(free, coldFree, size)
  {
    hide Fits;
    hide Fresh;
    hide RoomFits;
    if RoomFits(free, coldFree, size) {
      forall n: NodeCtrl, ka: nat, kb: nat, kc: nat | Fresh(n) && n.free == free && n.coldFree == coldFree && n.cold <= size * kc
        ensures Fits(n, ka, kb, kc, size)
      {
        RoomSuffices(n, ka, kb, kc, size);
      }
    } else {
      var q, rest, e, part := RoomFails(free, coldFree, size);
      Overfills(free, coldFree, size, q, rest, e, part);
    }
  }

  lemma RoomFails(free: nat, coldFree: nat, size: nat) returns (q: nat, rest: nat, e: nat, part: nat)
    requires size > 0 && !RoomFits(free, coldFree, size)
    ensures rest < size && part < size && free == size * q + rest && coldFree == size * e + part
    ensures !(rest == 0 && part == 0) && rest + 2 * coldFree >= size
  {
    hide Whole;
    Divides(size, free);
    Divides(size, coldFree);
    q, rest, e, part := free / size, free % size, coldFree / size, coldFree % size;
  }

  lemma Overfills(free: nat, coldFree: nat, size: nat, q: nat, rest: nat, e: nat, part: nat)
    requires size > 0 && rest < size && part < size && free == size * q + rest && coldFree == size * e + part
    requires !(rest == 0 && part == 0) && rest + 2 * coldFree >= size
    ensures !NeverOverfills(free, coldFree, size)
  {
    hide Fits;
    hide Fresh;
    if rest > 0 && rest + coldFree >= size {
      HotOverfills(size, q, rest, coldFree, 1);
      var n := Ledger(coldFree, free, size - rest, free + 2 * (size - rest), 0);
      assert !Fits(n, q + 1, 0, 1, size);
    } else {
      AtLeast(size, e);
      Few(size, e, part, coldFree, rest);
      ColdOverfills(size, q, rest, e, part);
      var t := size - part - rest;
      var n, k := Ledger(coldFree, free, t, free + 2 * t + (coldFree + free), coldFree + free), free + t + coldFree;
      assert !Fits(n, k, 0, k, size);
    }
  }

  lemma Few(size: nat, e: nat, part: nat, coldFree: nat, rest: nat)
    requires size > 0 && part < size && rest < size && coldFree == size * e + part
    requires !(rest == 0 && part == 0) && rest + 2 * coldFree >= size && !(rest > 0 && rest + coldFree >= size)
    ensures 0 < part && rest + part < size && size - part - rest <= coldFree
  {
    if e > 0 {
      assert size * e >= size by { AtLeast(e, size); }
    } else {
      assert size * e == 0;
    }
  }

  const MB := 0x10_0000

  /** A case within what the engine can be given: 32 MB pages, 16 MB free on either node, a quota of 48 MB,
      no reserve, one hot page, and eight cold pages, which the statistics count as 2 MB each. */
  lemma LargePagesOverfill()
    ensures var n := Ledger(16 * MB, 16 * MB, 8 * (2 * MB), 48 * MB, 0);
      Fresh(n) && n.cold <= 32 * MB * 8 && !Fits(n, 1, 0, 8, 32 * MB)
  {
    HotOverfills(32 * MB, 0, 16 * MB, 16 * MB, 8);
  }
}
