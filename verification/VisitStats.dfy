/**
 The running statistics of one page: how often it was seen visited, when last, and the mean and spread
 of the logarithms of the intervals between visits. Arithmetic is exact; the logarithm and the square
 root are parameters.
 */
module VisitStats {
  datatype PageType = Pte | Pmd | Pud

  /** Intervals seen so far, counted from -2: no visit yet, and -1: one visit and no interval. */
  type Intervals = m: int | m >= -2 witness -2

  /** One `struct page_refs`, as far as the scan fills it in. */
  datatype PageRec = PageRec(addr: nat, kind: PageType, m: Intervals, last: real, avg: real, std: real)

  datatype Maths = Maths(log: real -> real, sqrt: real -> real)

  /** The mark of a scan that found the page idle. */
  const IDLE: real := -1.0

  /** `alloc_page_refs_node`. */
  function NewRec(addr: nat, kind: PageType, time: real): PageRec {
    PageRec(addr, kind, if time != IDLE then -1 else -2, time, 0.0, -2.0)
  }

  /** The logarithm of the interval between two visits. */
  function Interval(f: Maths, last: real, time: real): real {
    if time - last > 0.0 then f.log(time - last) else -1.0
  }

  function SpreadSquare(m: nat, u: real, v: real, newU: real, x: real): real {
    (m as real * (v * v + (newU - u) * (newU - u)) + (newU - x) * (newU - x)) / (m + 1) as real
  }

  function Spread(f: Maths, m: nat, u: real, v: real, newU: real, x: real): real {
    f.sqrt(SpreadSquare(m, u, v, newU, x))
  }

  function NewMean(m: nat, u: real, x: real): real {
    (m as real * u + x) / (m + 1) as real
  }

  /** The branch of `update_page_refs` for a page that is already known. */
  function Visit(f: Maths, r: PageRec, time: real): PageRec {
    if time == IDLE then r
    else
      var m := r.m + 1;
      if m == -1 then r.(m := m, last := time)
      else
        var x := Interval(f, r.last, time);
        if m == 0 then r.(m := m, last := time, avg := x, std := 2.0)
        else
          var u := NewMean(m, r.avg, x);
          var v := Spread(f, m, r.avg, r.std, u, x);
          r.(m := m, last := time, avg := u, std := if v < 1.0 then 1.0 else v)
  }

  /** The record of a page after it was reported at `times`, in this order; idle reports included. */
  function History(f: Maths, addr: nat, kind: PageType, times: seq<real>): PageRec
    requires times != []
  {
    if |times| == 1 then NewRec(addr, kind, times[0])
    else Visit(f, History(f, addr, kind, times[..|times| - 1]), times[|times| - 1])
  }

  // ----- what the statistics mean

  /** The reports that found the page visited. */
  function Visits(times: seq<real>): seq<real> {
    if times == [] then []
    else Visits(times[..|times| - 1]) + (if times[|times| - 1] == IDLE then [] else [times[|times| - 1]])
  }

  /** The logged intervals between consecutive visits. */
  ghost function Logged(f: Maths, vs: seq<real>): (xs: seq<real>)
    ensures |xs| == if |vs| < 2 then 0 else |vs| - 1
  {
    if |vs| < 2 then [] else Logged(f, vs[..|vs| - 1]) + [Interval(f, vs[|vs| - 2], vs[|vs| - 1])]
  }

  /** Each logged interval is the logarithm of the time between two consecutive visits; -1 stands for none. */
  lemma {:induction false} LoggedAt(f: Maths, vs: seq<real>, i: nat)
    requires i + 1 < |vs|
    ensures vs[i] < vs[i + 1] ==> Logged(f, vs)[i] == f.log(vs[i + 1] - vs[i])
    ensures vs[i] >= vs[i + 1] ==> Logged(f, vs)[i] == -1.0
    decreases |vs|
  {
    if i + 2 < |vs| {
      LoggedAt(f, vs[..|vs| - 1], i);
    }
  }

  ghost function Sum(xs: seq<real>): real {
    if xs == [] then 0.0 else Sum(xs[..|xs| - 1]) + xs[|xs| - 1]
  }

  lemma SumMore(xs: seq<real>, x: real)
    ensures Sum(xs + [x]) == Sum(xs) + x
  {
    var all := xs + [x];
    assert all[..|all| - 1] == xs;
  }

  lemma LoggedMore(f: Maths, vs: seq<real>, time: real)
    requires vs != []
    ensures Logged(f, vs + [time]) == Logged(f, vs) + [Interval(f, vs[|vs| - 1], time)]
  {
    var ws := vs + [time];
    assert ws[..|ws| - 1] == vs;
  }

  /** `m` counts the intervals, `last` is the latest visit, `avg` the arithmetic mean of the logged
      intervals, and `std` tells whether there is an interval at all. */
  ghost predicate Describes(f: Maths, r: PageRec, vs: seq<real>) {
    && r.m + 2 == |vs|
    && r.last == (if vs == [] then IDLE else vs[|vs| - 1])
    && (if r.m < 0 then r.avg == 0.0 && r.std == -2.0
        else r.avg * (r.m + 1) as real == Sum(Logged(f, vs)) && r.std >= 1.0)
  }

  lemma MeanStep(m: nat, u: real, x: real, sum: real)
    requires u * m as real == sum
    ensures NewMean(m, u, x) * (m + 1) as real == sum + x
  {
    var d := (m + 1) as real;
    var n := m as real * u + x;
    assert n / d * d == n;
  }

  lemma VisitDescribes(f: Maths, r: PageRec, vs: seq<real>, time: real)
    requires Describes(f, r, vs) && time != IDLE
    ensures Describes(f, Visit(f, r, time), vs + [time])
  {
    hide Interval;
    hide Logged;
    hide Sum;
    hide Spread;
    hide NewMean;
    if r.m + 1 >= 0 {
      var x := Interval(f, r.last, time);
      LoggedMore(f, vs, time);
      SumMore(Logged(f, vs), x);
      if r.m + 1 > 0 {
        MeanStep(r.m + 1, r.avg, x, Sum(Logged(f, vs)));
      } else {
        assert Logged(f, vs) == [];
        NoSum();
      }
    }
  }

  lemma NoSum()
    ensures Sum([]) == 0.0
  {
  }

  /** For every sequence of reports the statistics describe exactly the visits among them. */
  lemma {:induction false} StatisticsExact(f: Maths, addr: nat, kind: PageType, times: seq<real>)
    requires times != []
    ensures Describes(f, History(f, addr, kind, times), Visits(times))
    ensures History(f, addr, kind, times).addr == addr && History(f, addr, kind, times).kind == kind
  {
    var n := |times| - 1;
    if n == 0 {
      assert Visits(times[..0]) == [];
    } else {
      StatisticsExact(f, addr, kind, times[..n]);
      if times[n] != IDLE {
        VisitDescribes(f, History(f, addr, kind, times[..n]), Visits(times[..n]), times[n]);
      } else {
        assert Visits(times) == Visits(times[..n]);
      }
    }
  }

  /** The mean itself, and the value of the spread after the first interval. */
  lemma MeanOfIntervals(f: Maths, addr: nat, kind: PageType, times: seq<real>)
    requires times != [] && |Visits(times)| >= 2
    ensures var r := History(f, addr, kind, times);
      && r.avg == Sum(Logged(f, Visits(times))) / (|Visits(times)| - 1) as real
      && r.std >= 1.0
  {
    hide History;
    hide Visits;
    hide Logged;
    hide Sum;
    StatisticsExact(f, addr, kind, times);
    var r := History(f, addr, kind, times);
    var sum := Sum(Logged(f, Visits(times)));
    assert r.m + 1 == |Visits(times)| - 1;
    Divided(r.avg, (r.m + 1) as real, sum);
  }

  lemma Divided(a: real, d: real, s: real)
    requires d > 0.0 && a * d == s
    ensures a == s / d
  {
  }

  // ----- the spread

  ghost function Sq(a: real): real {
    a * a
  }

  ghost function Weight(n: real, a: real): real {
    n * Sq(a)
  }

  ghost function Cross(d: real, sum: real, n: real, u: real): real {
    2.0 * d * (sum - n * u)
  }

  /** Sum of the squared distances from `c`. */
  ghost function SquaresFrom(xs: seq<real>, c: real): real {
    if xs == [] then 0.0 else SquaresFrom(xs[..|xs| - 1], c) + Sq(xs[|xs| - 1] - c)
  }

  lemma SquaresMore(xs: seq<real>, x: real, c: real)
    ensures SquaresFrom(xs + [x], c) == SquaresFrom(xs, c) + Sq(x - c)
  {
    hide Sq;
    var all := xs + [x];
    assert all[..|all| - 1] == xs;
  }

  lemma SquareSplit(x: real, u: real, c: real)
    ensures Sq(x - c) == Sq(x - u) + Cross(u - c, x, 1.0, u) + Sq(u - c)
  {
  }

  lemma Regroup(d: real, s: real, n: real, u: real, x: real)
    ensures Cross(d, s, n, u) + Weight(n, d) + Cross(d, x, 1.0, u) + Sq(d) == Cross(d, s + x, n + 1.0, u) + Weight(n + 1.0, d)
  {
  }

  lemma NoWeight(d: real, u: real)
    ensures Cross(d, 0.0, 0.0, u) == 0.0 && Weight(0.0, d) == 0.0
  {
  }

  lemma Balanced(d: real, s: real, n: real, u: real)
    requires u * n == s
    ensures Cross(d, s, n, u) == 0.0
  {
  }

  /** Moving the centre of a sum of squares. */
  lemma {:induction false} Recentred(xs: seq<real>, u: real, c: real)
    ensures SquaresFrom(xs, c) == SquaresFrom(xs, u) + Cross(u - c, Sum(xs), |xs| as real, u) + Weight(|xs| as real, u - c)
    decreases |xs|
  {
    hide Sq;
    hide Cross;
    hide Weight;
    if xs == [] {
      NoWeight(u - c, u);
    } else {
      var front, x := xs[..|xs| - 1], xs[|xs| - 1];
      Recentred(front, u, c);
      SquareSplit(x, u, c);
      assert |xs| as real == |front| as real + 1.0;
      Regroup(u - c, Sum(front), |front| as real, u, x);
    }
  }

  /** The square root is one. */
  ghost predicate ExactRoot(f: Maths) {
    forall y: real :: y >= 0.0 ==> f.sqrt(y) >= 0.0 && Sq(f.sqrt(y)) == y
  }

  lemma Product(a: real, b: real)
    requires a >= 0.0 && b >= 0.0
    ensures a * b >= 0.0
  {
  }

  lemma SquareSign(a: real)
    ensures Sq(a) >= 0.0
  {
  }

  lemma Quotient(a: real, d: real)
    requires d > 0.0
    ensures d * (a / d) == a && (a >= 0.0 ==> a / d >= 0.0)
  {
  }

  lemma Opened(m: real, u: real, v: real, c: real, x: real)
    ensures m * (v * v + (c - u) * (c - u)) + (c - x) * (c - x) == Weight(m, v) + Weight(m, u - c) + Sq(x - c)
  {
  }

  /** What stands under the root of the update. */
  lemma UnderRoot(m: nat, u: real, v: real, newU: real, x: real)
    ensures var y := SpreadSquare(m, u, v, newU, x);
      && y >= 0.0
      && (m + 1) as real * y == Weight(m as real, v) + Weight(m as real, u - newU) + Sq(x - newU)
  {
    hide Sq;
    var n, d := m as real, (m + 1) as real;
    Opened(n, u, v, newU, x);
    SquareSign(v);
    SquareSign(u - newU);
    SquareSign(x - newU);
    Product(n, Sq(v));
    Product(n, Sq(u - newU));
    hide Weight;
    Quotient(n * (v * v + (newU - u) * (newU - u)) + (newU - x) * (newU - x), d);
  }

  lemma WeightIs(n: real, a: real)
    ensures Weight(n, a) == n * Sq(a)
  {
  }

  /** An update that is not cut at 1 keeps the difference between the weighted spread and the squared
      distances of the intervals from their mean. */
  lemma SpreadStep(f: Maths, xs: seq<real>, u: real, v: real, x: real, newU: real)
    requires ExactRoot(f) && u * |xs| as real == Sum(xs)
    ensures var w := Spread(f, |xs|, u, v, newU, x);
      && w >= 0.0
      && Weight((|xs| + 1) as real, w) - SquaresFrom(xs + [x], newU) == Weight(|xs| as real, v) - SquaresFrom(xs, u)
  {
    hide Sq;
    hide Cross;
    hide Weight;
    hide SpreadSquare;
    hide Sum;
    hide SquaresFrom;
    Recentred(xs, u, newU);
    Balanced(u - newU, Sum(xs), |xs| as real, u);
    UnderRoot(|xs|, u, v, newU, x);
    SquaresMore(xs, x, newU);
    var y := SpreadSquare(|xs|, u, v, newU, x);
    assert Spread(f, |xs|, u, v, newU, x) == f.sqrt(y);
    WeightIs((|xs| + 1) as real, f.sqrt(y));
  }

  lemma Raised(n: real, w: real)
    requires n > 0.0 && 0.0 <= w < 1.0
    ensures Weight(n, w) < Weight(n, 1.0)
  {
    Product(w, 1.0 - w);
    assert w * w <= w;
    Scaled(n, 1.0 - Sq(w));
  }

  lemma Scaled(n: real, d: real)
    requires n > 0.0 && d > 0.0
    ensures n * d > 0.0
  {
  }

  /** The update of `r` at `time` is cut at 1. */
  ghost predicate Cut(f: Maths, r: PageRec, time: real) {
    && time != IDLE && r.m + 1 > 0
    && var x := Interval(f, r.last, time);
       Spread(f, r.m + 1, r.avg, r.std, NewMean(r.m + 1, r.avg, x), x) < 1.0
  }

  /** Some update in the history was cut at 1. */
  ghost predicate EverCut(f: Maths, addr: nat, kind: PageType, times: seq<real>)
    requires times != []
    decreases |times|
  {
    |times| > 1 &&
      var front := times[..|times| - 1];
      EverCut(f, addr, kind, front) || Cut(f, History(f, addr, kind, front), times[|times| - 1])
  }

  /** By how much the weighted spread exceeds the squared distances of the intervals from their mean. */
  ghost function Excess(r: PageRec, xs: seq<real>): real {
    Weight(|xs| as real, r.std) - SquaresFrom(xs, r.avg)
  }

  ghost predicate ExcessOk(excess: real, cut: bool) {
    excess >= 4.0 && (excess == 4.0 <==> !cut)
  }

  /** The first interval: the spread is set to 2 where the distance from the mean is 0. */
  lemma FirstInterval(x: real, r: PageRec)
    requires r.std == 2.0 && r.avg == x
    ensures Excess(r, [x]) == 4.0
  {
    assert [x][..0] == [];
    assert SquaresFrom([x], x) == SquaresFrom([], x) + Sq(0.0);
  }

  /** Every further interval: the excess stays, or grows when the spread is cut. */
  lemma NextInterval(f: Maths, r: PageRec, vs: seq<real>, time: real)
    requires ExactRoot(f) && Describes(f, r, vs) && r.m >= 0 && time != IDLE
    ensures var t := Visit(f, r, time);
      if Cut(f, r, time) then Excess(t, Logged(f, vs + [time])) > Excess(r, Logged(f, vs))
      else Excess(t, Logged(f, vs + [time])) == Excess(r, Logged(f, vs))
  {
    hide Interval;
    hide Logged;
    hide Sum;
    hide Spread;
    hide Weight;
    hide ExactRoot;
    hide NewMean;
    hide SquaresFrom;
    var xs := Logged(f, vs);
    var x := Interval(f, r.last, time);
    var u := NewMean(r.m + 1, r.avg, x);
    LoggedMore(f, vs, time);
    SpreadStep(f, xs, r.avg, r.std, x, u);
    var w := Spread(f, r.m + 1, r.avg, r.std, u, x);
    if w < 1.0 {
      Raised((|xs| + 1) as real, w);
    }
  }

  /**
   For every sequence of reports with an interval, and an exact square root: the number of intervals times
   the squared spread is at least 4 more than the squared distances of the intervals from their mean,
   because the first interval sets the spread to 2; and it is exactly 4 more unless an update was cut at 1.
   */
  lemma {:induction false} SpreadHistory(f: Maths, addr: nat, kind: PageType, times: seq<real>)
    requires times != [] && ExactRoot(f)
    ensures if |Visits(times)| < 2 then !EverCut(f, addr, kind, times)
      else ExcessOk(Excess(History(f, addr, kind, times), Logged(f, Visits(times))), EverCut(f, addr, kind, times))
  {
    hide Weight;
    hide ExactRoot;
    hide Cut;
    hide Excess;
    hide Visit;
    hide Describes;
    if |times| > 1 {
      var front, time := times[..|times| - 1], times[|times| - 1];
      SpreadHistory(f, addr, kind, front);
      StatisticsExact(f, addr, kind, front);
      SpreadNext(f, History(f, addr, kind, front), Visits(front), time, EverCut(f, addr, kind, front));
      if time == IDLE {
        assert Visits(times) == Visits(front);
      }
    } else {
      assert Visits(times[..0]) == [];
    }
  }

  /** One more report. */
  lemma SpreadNext(f: Maths, r: PageRec, vs: seq<real>, time: real, cut: bool)
    requires ExactRoot(f) && Describes(f, r, vs)
    requires if |vs| < 2 then !cut else ExcessOk(Excess(r, Logged(f, vs)), cut)
    ensures var now := cut || Cut(f, r, time);
      if time == IDLE then Visit(f, r, time) == r && now == cut
      else if |vs| + 1 < 2 then !now
      else ExcessOk(Excess(Visit(f, r, time), Logged(f, vs + [time])), now)
  {
    hide Weight;
    hide ExactRoot;
    hide Spread;
    hide Interval;
    hide Excess;
    hide Logged;
    hide NewMean;
    hide Sum;
    if time != IDLE && |vs| >= 2 {
      NextInterval(f, r, vs, time);
    } else if time != IDLE && |vs| == 1 {
      LoggedMore(f, vs, time);
      assert Logged(f, vs) == [] && Logged(f, vs + [time]) == [Interval(f, r.last, time)];
      FirstInterval(Interval(f, r.last, time), Visit(f, r, time));
    }
  }
}
