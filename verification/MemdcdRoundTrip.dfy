/** Sender and receiver together: a list cut into messages is put together again, whatever else
    memRouter handles in between. */
module MemdcdRoundTrip {
  import opened MemdcdProtocol
  import opened MemdcdSender
  import opened MemdcdReceiver

  /** What each message of process `p` led to, in the order of arrival. */
  ghost function Outcomes(cfg: Settings, s: Router, es: seq<Event>, p: int): seq<Outcome>
    requires exists t :: Run(cfg, s, es, t)
    decreases |es|
  {
    if es == [] then []
    else
      var t :| Run(cfg, s, es, t);
      var e := es[0];
      assert Run(cfg, Next(cfg, s, e), es[1..], t);
      (if e.Deliver? && e.msg.pid == p then [Handle(cfg, s, e.msg, e.now, e.worker, e.created).1] else [])
      + Outcomes(cfg, Next(cfg, s, e), es[1..], p)
  }

  /** The recycle pass of an event at `now` spares a record last touched at `stamp`. */
  ghost predicate InTime(cfg: Settings, stamp: int, now: int) {
    cfg.timeout == 0 || now - stamp <= cfg.timeout
  }

  /** `es` brings exactly the messages `ms` for process `p`, in order and with a thread available, mixed
      with any other events; between two of them the collection timeout does not pass. */
  ghost predicate Carries(cfg: Settings, es: seq<Event>, p: int, ms: seq<Message>, stamp: int)
    decreases |es|
  {
    if es == [] then ms == []
    else match es[0]
      case Deliver(m, now, _, created) =>
        && (ms == [] || InTime(cfg, stamp, now))
        && if m.pid == p then ms != [] && m == ms[0] && created && Carries(cfg, es[1..], p, ms[1..], now)
           else Carries(cfg, es[1..], p, ms, stamp)
      case Recycle(now) => (ms == [] || InTime(cfg, stamp, now)) && Carries(cfg, es[1..], p, ms, stamp)
      case Finish(_) => Carries(cfg, es[1..], p, ms, stamp)
      case Abort(_) => Carries(cfg, es[1..], p, ms, stamp)
  }

  /** A router in which record `r` waits for more pages. */
  ghost predicate Waiting(s: Router, r: Record) {
    Inv(s) && r in s.records && r.worker == NoWorker
  }

  lemma NobodyWorks(s: Router, r: Record, w: nat)
    requires Waiting(s, r) && w in s.busy
    ensures s.busy[w] != r.pid
  {
    assert WorkerOk(s.records, w, s.busy[w]);
    var own :| own in s.records && own.pid == s.busy[w] && own.worker == Worker(w);
    if own.pid == r.pid {
      FindOnly(s.records, own);
      FindOnly(s.records, r);
    }
  }

  lemma RecycledWaits(cfg: Settings, s: Router, r: Record, now: int)
    requires Waiting(s, r) && InTime(cfg, r.stamp, now)
    ensures Waiting(Recycled(cfg, s, now), r)
  {
    hide DropStale;
    InvRecycled(cfg, s, now);
    KeptRecords(s.records, now, cfg.timeout, s.busy);
  }

  /** Handling a message leaves the records of the other processes alone. */
  lemma OthersUntouched(s: Router, msg: Message, now: int, worker: nat, created: bool, r: Record)
    requires Inv(s) && r in s.records && r.pid != msg.pid
    ensures r in Collect(s, msg, now, worker, created).0.records
  {
    hide Inv;
    hide Store;
    hide Target;
    hide Find;
    assert OnePerPid(s.records) by { InvPids(s); }
    var g := Gather(s, msg, now);
    var i := Find(s.records, msg.pid);
    if i < |s.records| && Running(s.records[i], s.busy) {
    } else if i == |s.records| && msg.status != Start {
    } else {
      TargetRecords(s.records, msg);
      StoreOthers(s, Target(s.records, msg), msg, now, r);
    }
    if g.outcome.Started? && created {
      var rs := g.router.records;
      var k := Find(rs, msg.pid);
      Elsewhere(rs, k, rs[k].(worker := Worker(worker)), r);
    }
  }

  lemma InvPids(s: Router)
    requires Inv(s)
    ensures OnePerPid(s.records)
  {
  }

  lemma Elsewhere(rs: seq<Record>, k: nat, x: Record, r: Record)
    requires k < |rs| && r in rs && r.pid != rs[k].pid
    ensures r in rs[k := x]
  {
    var i :| 0 <= i < |rs| && rs[i] == r;
    assert rs[k := x][i] == r;
  }

  lemma StoreOthers(s: Router, rs: seq<Record>, msg: Message, now: int, r: Record)
    requires OnePerPid(rs) && Find(rs, msg.pid) < |rs| && r in rs && r.pid != msg.pid
    ensures r in Store(s, rs, msg, now).router.records
  {
    hide Find;
    hide RemovePid;
    var k := Find(rs, msg.pid);
    var full := rs[k].(pages := rs[k].pages + msg.payload, stamp := now);
    UpdatedRecords(rs, k, full);
    Elsewhere(rs, k, full, r);
    RemovedRecords(rs, msg.pid);
    RemovedRecords(rs[k := full], msg.pid);
  }

  /** No event of another process disturbs a waiting record. */
  lemma OtherEvent(cfg: Settings, s: Router, e: Event, r: Record)
    requires Waiting(s, r) && Possible(s, e)
    requires e.Deliver? ==> e.msg.pid != r.pid && InTime(cfg, r.stamp, e.now)
    requires e.Recycle? ==> InTime(cfg, r.stamp, e.now)
    ensures Waiting(Next(cfg, s, e), r)
  {
    hide Inv;
    hide Collect;
    hide Recycled;
    hide RemovePid;
    InvNext(cfg, s, e);
    match e
    case Deliver(m, now, w, created) =>
      RecycledWaits(cfg, s, r, now);
      OthersUntouched(Recycled(cfg, s, now), m, now, w, created, r);
    case Recycle(now) => RecycledWaits(cfg, s, r, now);
    case Finish(w) =>
      NobodyWorks(s, r, w);
      InvPids(s);
      RemovedRecords(s.records, s.busy[w]);
    case Abort(_) =>
  }

  /** A piece that fits: the record of its process grows by the payload, and a worker starts exactly
      when the list is complete and the piece is not tagged PROCESS. */
  ghost predicate Grown(cfg: Settings, s: Router, m: Message, now: int, worker: nat, r: Record) {
    var out := Handle(cfg, s, m, now, worker, true);
    if m.status != Process && |r.pages| == r.total then out.1 == Started(r.pages)
    else out.1 == Stored && Waiting(out.0, r)
  }

  lemma StoreGrows(s: Router, rs: seq<Record>, r: Record, msg: Message, now: int)
    requires Find(rs, msg.pid) < |rs| && rs[Find(rs, msg.pid)] == r
    requires |r.pages| + |msg.payload| <= r.total
    requires msg.status == End ==> |r.pages| + |msg.payload| == r.total
    ensures var g := Store(s, rs, msg, now); var full := r.(pages := r.pages + msg.payload, stamp := now);
      && full in g.router.records
      && g.outcome == if msg.status != Process && |full.pages| == full.total then Started(full.pages) else Stored
  {
    hide Find;
    hide RemovePid;
    var full := r.(pages := r.pages + msg.payload, stamp := now);
    assert rs[Find(rs, msg.pid) := full][Find(rs, msg.pid)] == full;
  }

  /** A later piece arrives for a waiting record. */
  lemma NextPiece(cfg: Settings, s: Router, r: Record, m: Message, now: int, worker: nat)
    requires Waiting(s, r) && InTime(cfg, r.stamp, now) && Possible(s, Deliver(m, now, worker, true))
    requires m.pid == r.pid && 0 < m.pid <= cfg.pidMax && m.status != Start
    requires |r.pages| + |m.payload| <= r.total && (m.status == End ==> |r.pages| + |m.payload| == r.total)
    ensures Grown(cfg, s, m, now, worker, r.(pages := r.pages + m.payload, stamp := now))
  {
    hide Inv;
    hide Store;
    hide Recycled;
    hide Find;
    InvNext(cfg, s, Deliver(m, now, worker, true));
    RecycledWaits(cfg, s, r, now);
    var q := Recycled(cfg, s, now);
    InvPids(q);
    FindOnly(q.records, r);
    StoreGrows(q, q.records, r, m, now);
  }

  /** The first piece arrives while no worker runs for its process. */
  lemma FirstPiece(cfg: Settings, s: Router, m: Message, now: int, worker: nat)
    requires Inv(s) && Possible(s, Deliver(m, now, worker, true))
    requires forall r :: r in s.records && r.pid == m.pid ==> !Running(r, s.busy)
    requires 0 < m.pid <= cfg.pidMax && m.status == Start && |m.payload| <= m.total
    ensures Grown(cfg, s, m, now, worker, Record(m.pid, m.total, m.payload, now, NoWorker))
  {
    hide Inv;
    hide Store;
    hide Recycled;
    hide Find;
    hide RemovePid;
    InvNext(cfg, s, Deliver(m, now, worker, true));
    InvRecycled(cfg, s, now);
    var q := Recycled(cfg, s, now);
    var fresh0 := Record(m.pid, m.total, [], 0, NoWorker);
    var rs := Target(q.records, m);
    assert rs[0] == fresh0;
    assert Find(rs, m.pid) == 0;
    StoreGrows(q, rs, fresh0, m, now);
    assert [] + m.payload == m.payload;
  }

  ghost function Expected(n: nat, pages: seq<Page>): seq<Outcome>
    requires n > 0
  {
    seq(n - 1, _ => Stored) + [Started(pages)]
  }

  lemma ExpectedStep(n: nat, pages: seq<Page>)
    requires n > 0
    ensures Expected(n + 1, pages) == [Stored] + Expected(n, pages)
  {
  }

  lemma {:induction false} Silence(cfg: Settings, s: Router, es: seq<Event>, t: Router, p: int, stamp: int)
    requires Run(cfg, s, es, t) && Carries(cfg, es, p, [], stamp)
    ensures Outcomes(cfg, s, es, p) == []
    decreases |es|
  {
    hide Next;
    if es != [] {
      Silence(cfg, Next(cfg, s, es[0]), es[1..], t, p, stamp);
    }
  }

  /** What one event contributes to the outcomes of a run. */
  lemma OutcomesStep(cfg: Settings, s: Router, es: seq<Event>, t: Router, p: int)
    requires es != [] && Run(cfg, s, es, t)
    ensures Run(cfg, Next(cfg, s, es[0]), es[1..], t)
    ensures Outcomes(cfg, s, es, p)
         == (if es[0].Deliver? && es[0].msg.pid == p
             then [Handle(cfg, s, es[0].msg, es[0].now, es[0].worker, es[0].created).1] else [])
          + Outcomes(cfg, Next(cfg, s, es[0]), es[1..], p)
  {
    hide Next;
    hide Handle;
  }

  /** The pieces after the first. */
  lemma {:induction false} Continued(cfg: Settings, s: Router, es: seq<Event>, t: Router, r: Record, rest: seq<Page>, ms: seq<Message>)
    requires Waiting(s, r) && Run(cfg, s, es, t) && 0 < r.pid <= cfg.pidMax
    requires rest != [] && r.total == |r.pages| + |rest| && ms == SegmentsFrom(r.pid, r.total, rest, false)
    requires Carries(cfg, es, r.pid, ms, r.stamp)
    ensures Outcomes(cfg, s, es, r.pid) == Expected(|ms|, r.pages + rest)
    decreases |es|
  {
    hide Next;
    hide Handle;
    hide Waiting;
    hide Outcomes;
    var e := es[0];
    OutcomesStep(cfg, s, es, t, r.pid);
    if e.Deliver? && e.msg.pid == r.pid {
      var m := ms[0];
      var more := r.(pages := r.pages + m.payload, stamp := e.now);
      NextPiece(cfg, s, r, m, e.now, e.worker);
      DeliveredNext(cfg, s, e);
      if |rest| <= MAX_VMA_NUM {
        assert ms[1..] == [];
        Silence(cfg, Next(cfg, s, e), es[1..], t, r.pid, e.now);
      } else {
        var tail := rest[MAX_VMA_NUM..];
        assert ms[1..] == SegmentsFrom(r.pid, r.total, tail, false);
        assert r.pages + rest == more.pages + tail;
        Continued(cfg, Next(cfg, s, e), es[1..], t, more, tail, ms[1..]);
        ExpectedStep(|ms| - 1, r.pages + rest);
      }
    } else {
      OtherEvent(cfg, s, e, r);
      Continued(cfg, Next(cfg, s, e), es[1..], t, r, rest, ms);
    }
  }

  lemma DeliveredNext(cfg: Settings, s: Router, e: Event)
    requires e.Deliver? && Possible(s, e)
    ensures Next(cfg, s, e) == Handle(cfg, s, e.msg, e.now, e.worker, e.created).0
  {
  }

  /**
   For every non-empty list: when its messages reach a router on which no worker runs for that process,
   mixed with any messages, recycle passes and worker ends of other processes, every message but the
   last only adds to the collection, and the last one starts a worker on exactly the original list.
   */
  lemma RoundTrip(cfg: Settings, s: Router, es: seq<Event>, t: Router, p: int, pages: seq<Page>)
    requires Inv(s) && Run(cfg, s, es, t) && 0 < p <= cfg.pidMax && pages != []
    requires forall r :: r in s.records && r.pid == p ==> !Running(r, s.busy)
    requires es != [] && es[0].Deliver? && es[0].msg.pid == p && Carries(cfg, es, p, Segments(p, pages), es[0].now)
    ensures Outcomes(cfg, s, es, p) == Expected(|Segments(p, pages)|, pages)
  {
    hide Next;
    hide Handle;
    hide Inv;
    hide Waiting;
    hide Outcomes;
    var ms := Segments(p, pages);
    var e := es[0];
    var m := ms[0];
    OutcomesStep(cfg, s, es, t, p);
    FirstPiece(cfg, s, m, e.now, e.worker);
    DeliveredNext(cfg, s, e);
    var r := Record(p, |pages|, m.payload, e.now, NoWorker);
    if |pages| <= MAX_VMA_NUM {
      assert ms[1..] == [];
      Silence(cfg, Next(cfg, s, e), es[1..], t, p, e.now);
    } else {
      var tail := pages[MAX_VMA_NUM..];
      assert ms[1..] == SegmentsFrom(p, |pages|, tail, false);
      assert pages == r.pages + tail;
      Continued(cfg, Next(cfg, s, e), es[1..], t, r, tail, ms[1..]);
      ExpectedStep(|ms| - 1, pages);
    }
  }
}
