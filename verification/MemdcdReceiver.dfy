/**
 memRouter's side of the protocol. One record per process collects the pieces of its page list; when
 the list is complete a worker thread is started on it. Handling one message, one recycle pass and
 one worker completion are each a single step.
 */
module MemdcdReceiver {
  import opened MemdcdProtocol

  datatype WorkerRef = NoWorker | Worker(id: nat)

  /** `struct migrate_process`; `pages` are the first `offset` entries of its page list. */
  datatype Record = Record(pid: int, total: nat, pages: seq<Page>, stamp: int, worker: WorkerRef)

  /** The settings of a router: recycle timeout in seconds (0: never recycle) and the largest pid. */
  datatype Settings = Settings(timeout: nat, pidMax: int)

  /** `records` is the list from its head on; `busy` are the worker threads that have not ended, with
      the process each one works for; `log` remembers every message whose pages were stored. */
  datatype Router = Router(records: seq<Record>, last: int, busy: map<nat, int>, log: seq<Message>)

  datatype Event =
    | Deliver(msg: Message, now: int, worker: nat, created: bool) // `created`: pthread_create succeeded
    | Recycle(now: int)
    | Finish(worker: nat) // a worker removes its record and ends
    | Abort(worker: nat)  // a worker ends early and leaves its record

  // ----- the list operations

  /** Position of the first record of `pid`, or the length of the list. */
  function Find(rs: seq<Record>, pid: int): (i: nat)
    ensures i <= |rs| && (i < |rs| ==> rs[i].pid == pid)
    ensures forall k :: 0 <= k < i ==> rs[k].pid != pid
  {
    if rs == [] || rs[0].pid == pid then 0 else 1 + Find(rs[1..], pid)
  }

  function RemovePid(rs: seq<Record>, pid: int): seq<Record> {
    var i := Find(rs, pid);
    if i < |rs| then rs[..i] + rs[i + 1..] else rs
  }

  predicate Running(r: Record, busy: map<nat, int>) {
    r.worker.Worker? && r.worker.id in busy
  }

  /** A record is recycled when it is too old and no thread works on it. */
  predicate Stale(r: Record, now: int, timeout: nat, busy: map<nat, int>) {
    now - r.stamp > timeout && !Running(r, busy)
  }

  function DropStale(rs: seq<Record>, now: int, timeout: nat, busy: map<nat, int>): seq<Record> {
    if rs == [] then []
    else (if Stale(rs[0], now, timeout, busy) then [] else [rs[0]]) + DropStale(rs[1..], now, timeout, busy)
  }

  /** `migrate_process_recycle`. */
  function Recycled(cfg: Settings, s: Router, now: int): Router {
    if cfg.timeout == 0 then s
    else if s.last == 0 || now - s.last < cfg.timeout then s.(last := now)
    else s.(last := now, records := DropStale(s.records, now, cfg.timeout, s.busy))
  }

  // ----- one message

  datatype Outcome = Discarded | Stored | Started(pages: seq<Page>)

  /** The record that receives the message: the present one, or for a first piece a new one in front. */
  function Target(rs: seq<Record>, msg: Message): (r: seq<Record>)
    requires Find(rs, msg.pid) < |rs| || msg.status == Start
    ensures Find(r, msg.pid) < |r|
  {
    if msg.status == Start then
      var t := [Record(msg.pid, msg.total, [], 0, NoWorker)] + RemovePid(rs, msg.pid);
      assert t[0].pid == msg.pid;
      t
    else rs
  }

  datatype Gathered = Gathered(router: Router, outcome: Outcome)

  /** `migrate_process_collect_pages` after the recycle pass; `Started` when the list is complete and a
      worker is due. */
  function Gather(s: Router, msg: Message, now: int): (g: Gathered)
    ensures g.outcome.Started? ==> Find(g.router.records, msg.pid) < |g.router.records|
  {
    var i := Find(s.records, msg.pid);
    if i < |s.records| && Running(s.records[i], s.busy) then Gathered(s, Discarded)
    else if i == |s.records| && msg.status != Start then Gathered(s, Discarded)
    else Store(s, Target(s.records, msg), msg, now)
  }

  /** Append the pages of the message to its record in `rs`. */
  function Store(s: Router, rs: seq<Record>, msg: Message, now: int): (g: Gathered)
    requires Find(rs, msg.pid) < |rs|
    ensures g.outcome.Started? ==> Find(g.router.records, msg.pid) < |g.router.records|
  {
    var k := Find(rs, msg.pid);
    var cur := rs[k];
    if |cur.pages| + |msg.payload| > cur.total then Gathered(s.(records := RemovePid(rs, msg.pid)), Discarded)
    else
      var full := cur.(pages := cur.pages + msg.payload, stamp := now);
      var more := rs[k := full];
      assert more[k].pid == msg.pid;
      if msg.status == End && |full.pages| != full.total then
        Gathered(s.(records := RemovePid(more, msg.pid)), Discarded)
      else
        Gathered(s.(records := more, log := s.log + [msg]),
                 if msg.status != Process && |full.pages| == full.total then Started(full.pages) else Stored)
  }

  /** Gathering, and the creation of the worker thread that follows it. */
  function Collect(s: Router, msg: Message, now: int, worker: nat, created: bool): (r: (Router, Outcome)) {
    var g := Gather(s, msg, now);
    if !g.outcome.Started? then (g.router, g.outcome)
    else if !created then (g.router, Stored)
    else
      var rs := g.router.records;
      var k := Find(rs, msg.pid);
      (g.router.(records := rs[k := rs[k].(worker := Worker(worker))], busy := g.router.busy[worker := msg.pid]), g.outcome)
  }

  /** `migrate_process_get_pages`. */
  function Handle(cfg: Settings, s: Router, msg: Message, now: int, worker: nat, created: bool): (r: (Router, Outcome)) {
    if msg.pid <= 0 || msg.pid > cfg.pidMax then (s, Discarded)
    else Collect(Recycled(cfg, s, now), msg, now, worker, created)
  }

  ghost predicate Possible(s: Router, e: Event) {
    match e
    case Deliver(_, _, w, _) => w !in s.busy && forall r :: r in s.records ==> r.worker != Worker(w)
    case Recycle(_) => true
    case Finish(w) => w in s.busy
    case Abort(w) => w in s.busy
  }

  ghost function Next(cfg: Settings, s: Router, e: Event): Router
    requires Possible(s, e)
  {
    match e
    case Deliver(m, now, w, created) => Handle(cfg, s, m, now, w, created).0
    case Recycle(now) => Recycled(cfg, s, now)
    case Finish(w) => s.(records := RemovePid(s.records, s.busy[w]), busy := s.busy - {w})
    case Abort(w) => s.(busy := s.busy - {w})
  }

  // ----- what every reachable router satisfies

  /** The pages stored for `pid` since its last first piece, read off the log. */
  ghost function SinceStart(log: seq<Message>, pid: int): seq<Page> {
    if log == [] then []
    else
      var m := log[|log| - 1];
      if m.pid != pid then SinceStart(log[..|log| - 1], pid)
      else if m.status == Start then m.payload
      else SinceStart(log[..|log| - 1], pid) + m.payload
  }

  ghost predicate OnePerPid(rs: seq<Record>) {
    forall i, j :: 0 <= i < j < |rs| ==> rs[i].pid != rs[j].pid
  }

  ghost predicate RecordOk(r: Record, log: seq<Message>) {
    |r.pages| <= r.total && r.pages == SinceStart(log, r.pid)
  }

  /** A running worker has its record, complete, in the list. */
  ghost predicate WorkerOk(rs: seq<Record>, w: nat, pid: int) {
    exists r :: r in rs && r.pid == pid && r.worker == Worker(w) && |r.pages| == r.total
  }

  ghost predicate Inv(s: Router) {
    && OnePerPid(s.records)
    && (forall r :: r in s.records ==> RecordOk(r, s.log))
    && (forall w :: w in s.busy ==> WorkerOk(s.records, w, s.busy[w]))
  }

  lemma FindOnly(rs: seq<Record>, r: Record)
    requires OnePerPid(rs) && r in rs
    ensures Find(rs, r.pid) < |rs| && rs[Find(rs, r.pid)] == r
  {
    var i :| 0 <= i < |rs| && rs[i] == r;
    var k := Find(rs, r.pid);
    assert k <= i;
    assert rs[k].pid == rs[i].pid;
  }

  lemma RemovedRecords(rs: seq<Record>, pid: int)
    requires OnePerPid(rs)
    ensures OnePerPid(RemovePid(rs, pid))
    ensures forall r :: r in RemovePid(rs, pid) <==> r in rs && r.pid != pid
  {
    var i := Find(rs, pid);
    var q := RemovePid(rs, pid);
    if i < |rs| {
      assert forall k :: 0 <= k < |q| ==> q[k] == rs[if k < i then k else k + 1];
      forall r | r in rs && r.pid != pid
        ensures r in q
      {
        var k :| 0 <= k < |rs| && rs[k] == r;
        assert q[if k < i then k else k - 1] == r;
      }
    }
  }

  // ----- what a recycle pass does

  /** A pass looks at the records when recycling is on, the clock has been read before, and the timeout has
      passed since. */
  predicate Due(cfg: Settings, s: Router, now: int) {
    cfg.timeout > 0 && s.last != 0 && now - s.last >= cfg.timeout
  }

  /** A record written at most `timeout` seconds ago, or with a running thread. */
  predicate Needed(r: Record, now: int, timeout: nat, busy: map<nat, int>) {
    now - r.stamp <= timeout || (r.worker.Worker? && r.worker.id in busy)
  }

  lemma {:induction false} KeptRecords(rs: seq<Record>, now: int, timeout: nat, busy: map<nat, int>)
    requires OnePerPid(rs)
    ensures OnePerPid(DropStale(rs, now, timeout, busy))
    ensures forall r :: r in DropStale(rs, now, timeout, busy) <==> r in rs && Needed(r, now, timeout, busy)
  {
    if rs != [] {
      var q := DropStale(rs[1..], now, timeout, busy);
      assert OnePerPid(rs[1..]);
      KeptRecords(rs[1..], now, timeout, busy);
      forall j | 0 <= j < |q|
        ensures q[j].pid != rs[0].pid
      {
        assert q[j] in rs[1..];
        var k :| 1 <= k < |rs| && rs[k] == q[j];
      }
      forall r | r in rs
        ensures r == rs[0] || r in rs[1..]
      {
        var k :| 0 <= k < |rs| && rs[k] == r;
        assert k == 0 || rs[1..][k - 1] == r;
      }
    }
  }

  /** `kept` are the records of `rs` at the places `at`, in order, and these are all the needed ones. */
  ghost predicate KeptAt(rs: seq<Record>, kept: seq<Record>, at: seq<int>, now: int, timeout: nat, busy: map<nat, int>) {
    && |at| == |kept|
    && (forall a, b :: 0 <= a < b < |at| ==> at[a] < at[b])
    && (forall k :: 0 <= k < |at| ==> 0 <= at[k] < |rs| && kept[k] == rs[at[k]])
    && (forall i :: 0 <= i < |rs| ==> (i in at <==> Needed(rs[i], now, timeout, busy)))
  }

  /** A pass that is due keeps exactly the needed records; any other leaves them alone. Either way the clock
      is remembered, unless recycling is off. */
  ghost predicate PassDone(cfg: Settings, s: Router, t: Router, now: int) {
    && t.busy == s.busy && t.log == s.log
    && t.last == (if cfg.timeout > 0 then now else s.last)
    && (!Due(cfg, s, now) ==> t.records == s.records)
    && (Due(cfg, s, now) ==>
          && (forall r :: r in t.records <==> r in s.records && Needed(r, now, cfg.timeout, s.busy))
          && exists at :: KeptAt(s.records, t.records, at, now, cfg.timeout, s.busy))
  }

  lemma {:induction false} DropStaleLast(rs: seq<Record>, r: Record, now: int, timeout: nat, busy: map<nat, int>)
    ensures DropStale(rs + [r], now, timeout, busy)
         == DropStale(rs, now, timeout, busy) + if Needed(r, now, timeout, busy) then [r] else []
  {
    if rs != [] {
      assert (rs + [r])[1..] == rs[1..] + [r];
      DropStaleLast(rs[1..], r, now, timeout, busy);
    }
  }

  lemma {:induction false} KeptPlaces(rs: seq<Record>, now: int, timeout: nat, busy: map<nat, int>) returns (at: seq<int>)
    ensures KeptAt(rs, DropStale(rs, now, timeout, busy), at, now, timeout, busy)
    decreases |rs|
  {
    hide DropStale;
    hide Needed;
    if rs == [] {
      at := [];
      NoneToDrop(now, timeout, busy);
    } else {
      var n := |rs| - 1;
      var before := KeptPlaces(rs[..n], now, timeout, busy);
      DropStaleLast(rs[..n], rs[n], now, timeout, busy);
      assert rs == rs[..n] + [rs[n]];
      at := before + if Needed(rs[n], now, timeout, busy) then [n] else [];
      assert forall i :: 0 <= i < n ==> rs[..n][i] == rs[i];
    }
  }

  lemma NoneToDrop(now: int, timeout: nat, busy: map<nat, int>)
    ensures DropStale([], now, timeout, busy) == []
  {
  }

  lemma KeptMembers(rs: seq<Record>, kept: seq<Record>, at: seq<int>, now: int, timeout: nat, busy: map<nat, int>)
    requires KeptAt(rs, kept, at, now, timeout, busy)
    ensures forall r :: r in kept <==> r in rs && Needed(r, now, timeout, busy)
  {
    hide Needed;
    forall r
      ensures r in kept <==> r in rs && Needed(r, now, timeout, busy)
    {
      if r in kept {
        var k :| 0 <= k < |kept| && kept[k] == r;
        assert at[k] in at && rs[at[k]] == r;
      }
      if r in rs && Needed(r, now, timeout, busy) {
        var i :| 0 <= i < |rs| && rs[i] == r;
        assert i in at;
        var k :| 0 <= k < |at| && at[k] == i;
        assert kept[k] == r;
      }
    }
  }

  lemma RecycledExactly(cfg: Settings, s: Router, now: int)
    ensures PassDone(cfg, s, Recycled(cfg, s, now), now)
  {
    if Due(cfg, s, now) {
      var at := KeptPlaces(s.records, now, cfg.timeout, s.busy);
      KeptMembers(s.records, Recycled(cfg, s, now).records, at, now, cfg.timeout, s.busy);
    }
  }

  /** Without a record of its process, a piece that is not a first one is turned away. */
  lemma NoRecordNoPiece(t: Router, msg: Message, now: int, worker: nat, created: bool)
    requires msg.status != Start && forall k :: 0 <= k < |t.records| ==> t.records[k].pid != msg.pid
    ensures Collect(t, msg, now, worker, created) == (t, Discarded)
  {
    hide Store;
    hide Target;
    assert Find(t.records, msg.pid) == |t.records|;
  }

  lemma UnneededGone(cfg: Settings, s: Router, r: Record, now: int, q: Record)
    requires Inv(s) && r in s.records && Due(cfg, s, now) && !Needed(r, now, cfg.timeout, s.busy)
    requires q in Recycled(cfg, s, now).records
    ensures q.pid != r.pid
  {
    hide Recycled;
    RecycledExactly(cfg, s, now);
    FindOnly(s.records, q);
    FindOnly(s.records, r);
  }

  /** A record that a due pass does not need is gone: a further piece for its process is turned away and only
      a first piece begins anew. */
  lemma StaleForgotten(cfg: Settings, s: Router, r: Record, msg: Message, now: int, worker: nat, created: bool)
    requires Inv(s) && r in s.records && Due(cfg, s, now) && 0 < r.pid <= cfg.pidMax
    requires now - r.stamp > cfg.timeout && !Running(r, s.busy)
    requires msg.pid == r.pid && msg.status != Start
    ensures var out := Handle(cfg, s, msg, now, worker, created);
      out.1 == Discarded && forall q :: q in out.0.records ==> q.pid != r.pid
  {
    hide Recycled;
    hide Inv;
    hide Collect;
    var t := Recycled(cfg, s, now);
    forall q | q in t.records
      ensures q.pid != r.pid
    {
      UnneededGone(cfg, s, r, now, q);
    }
    assert forall k :: 0 <= k < |t.records| ==> t.records[k] in t.records;
    NoRecordNoPiece(t, msg, now, worker, created);
  }

  /** A step that keeps every running record, adds none but good ones, and keeps pids apart. */
  lemma InvKept(s: Router, t: Router)
    requires Inv(s) && OnePerPid(t.records)
    requires forall r :: r in t.records ==> RecordOk(r, t.log)
    requires forall w :: w in t.busy ==> w in s.busy && t.busy[w] == s.busy[w]
    requires forall r :: r in s.records && Running(r, s.busy) && r.worker.id in t.busy ==> r in t.records
    ensures Inv(t)
  {
    forall w | w in t.busy
      ensures WorkerOk(t.records, w, t.busy[w])
    {
      assert WorkerOk(s.records, w, s.busy[w]);
      var r :| r in s.records && r.pid == s.busy[w] && r.worker == Worker(w) && |r.pages| == r.total;
      assert r in t.records;
    }
  }

  lemma InvRecycled(cfg: Settings, s: Router, now: int)
    requires Inv(s)
    ensures Inv(Recycled(cfg, s, now))
    ensures forall r :: r in s.records && Running(r, s.busy) ==> r in Recycled(cfg, s, now).records
    ensures Recycled(cfg, s, now).busy == s.busy && Recycled(cfg, s, now).log == s.log
    ensures forall r :: r in Recycled(cfg, s, now).records ==> r in s.records
  {
    KeptRecords(s.records, now, cfg.timeout, s.busy);
    InvKept(s, Recycled(cfg, s, now));
  }

  /** The list with the target record in place: other records as before, exactly one for the pid. */
  lemma TargetRecords(rs: seq<Record>, msg: Message)
    requires OnePerPid(rs) && (Find(rs, msg.pid) < |rs| || msg.status == Start)
    ensures OnePerPid(Target(rs, msg))
    ensures forall r: Record :: r.pid != msg.pid ==> (r in Target(rs, msg) <==> r in rs)
  {
    RemovedRecords(rs, msg.pid);
    if msg.status == Start {
      var t := RemovePid(rs, msg.pid);
      var q := Target(rs, msg);
      assert q[1..] == t;
      forall k | 0 <= k < |t|
        ensures t[k].pid != msg.pid
      {
        assert t[k] in t;
      }
      forall r: Record | r.pid != msg.pid
        ensures r in q <==> r in rs
      {
        assert r in q <==> r in t;
      }
    }
  }

  lemma UpdatedRecords(rs: seq<Record>, k: nat, r: Record)
    requires OnePerPid(rs) && k < |rs| && r.pid == rs[k].pid
    ensures OnePerPid(rs[k := r])
    ensures forall q: Record :: q.pid != r.pid ==> (q in rs[k := r] <==> q in rs)
    ensures forall q :: q in rs[k := r] && q.pid == r.pid ==> q == r
    ensures r in rs[k := r]
  {
    var u := rs[k := r];
    assert u[k] == r;
    forall q: Record | q.pid != r.pid
      ensures q in u <==> q in rs
    {
      if q in rs {
        var i :| 0 <= i < |rs| && rs[i] == q;
        assert u[i] == q;
      }
      if q in u {
        var i :| 0 <= i < |u| && u[i] == q;
        assert rs[i] == q;
      }
    }
    assert forall i :: 0 <= i < |u| && i != k ==> u[i].pid != r.pid;
  }

  lemma LogOthers(log: seq<Message>, m: Message, pid: int)
    ensures SinceStart(log + [m], pid)
         == if m.pid != pid then SinceStart(log, pid)
            else if m.status == Start then m.payload
            else SinceStart(log, pid) + m.payload
  {
    var more := log + [m];
    assert more[..|more| - 1] == log && more[|more| - 1] == m;
  }

  /** Gathering keeps the invariant and every running record; when it reports a complete list, that
      list is what the log says, and the record is in place. */
  lemma GatherKeeps(s: Router, msg: Message, now: int)
    requires Inv(s)
    ensures var g := Gather(s, msg, now);
      && Inv(g.router) && g.router.busy == s.busy
      && (forall r :: r in s.records && Running(r, s.busy) ==> r in g.router.records)
      && (g.outcome.Started? ==>
            var r := g.router.records[Find(g.router.records, msg.pid)];
            && g.outcome.pages == r.pages == SinceStart(s.log + [msg], msg.pid) && |r.pages| == r.total
            && g.router.log == s.log + [msg] && !Running(r, s.busy))
  {
    var i := Find(s.records, msg.pid);
    if i < |s.records| && Running(s.records[i], s.busy) {
    } else if i == |s.records| && msg.status != Start {
    } else {
      TargetRecords(s.records, msg);
      TargetPages(s, msg);
      forall r | r in s.records && Running(r, s.busy)
        ensures r.pid != msg.pid
      {
        FindOnly(s.records, r);
      }
      StoreKeeps(s, Target(s.records, msg), msg, now);
    }
  }

  lemma StoreKeeps(s: Router, rs: seq<Record>, msg: Message, now: int)
    requires Inv(s) && OnePerPid(rs) && Find(rs, msg.pid) < |rs|
    requires forall r: Record :: r.pid != msg.pid ==> (r in rs <==> r in s.records)
    requires forall r :: r in s.records && Running(r, s.busy) ==> r.pid != msg.pid
    requires var cur := rs[Find(rs, msg.pid)];
      && (msg.status == Start ==> cur.pages == [])
      && (msg.status != Start ==> cur.pages == SinceStart(s.log, msg.pid))
      && !Running(cur, s.busy)
    ensures var g := Store(s, rs, msg, now);
      && Inv(g.router) && g.router.busy == s.busy
      && (forall r :: r in s.records && Running(r, s.busy) ==> r in g.router.records)
      && (g.outcome.Started? ==>
            var r := g.router.records[Find(g.router.records, msg.pid)];
            && g.outcome.pages == r.pages == SinceStart(s.log + [msg], msg.pid) && |r.pages| == r.total
            && g.router.log == s.log + [msg] && !Running(r, s.busy))
  {
    var k := Find(rs, msg.pid);
    var cur := rs[k];
    if |cur.pages| + |msg.payload| > cur.total {
      RemovedRecords(rs, msg.pid);
      DroppedKeeps(s, s.(records := RemovePid(rs, msg.pid)), msg.pid);
    } else {
      var full := cur.(pages := cur.pages + msg.payload, stamp := now);
      UpdatedRecords(rs, k, full);
      LogOthers(s.log, msg, msg.pid);
      if msg.status == End && |full.pages| != full.total {
        RemovedRecords(rs[k := full], msg.pid);
        DroppedKeeps(s, s.(records := RemovePid(rs[k := full], msg.pid)), msg.pid);
      } else {
        StoredKeeps(s, rs, msg, k, full);
        FindOnly(rs[k := full], full);
      }
    }
  }

  /** Handling a message: as gathering, with the worker attached when one was created. */
  lemma CollectKeeps(s: Router, msg: Message, now: int, worker: nat, created: bool)
    requires Inv(s) && worker !in s.busy && (forall r :: r in s.records ==> r.worker != Worker(worker))
    ensures Inv(Collect(s, msg, now, worker, created).0)
    ensures forall r :: r in s.records && Running(r, s.busy) ==> r in Collect(s, msg, now, worker, created).0.records
    ensures var out := Collect(s, msg, now, worker, created);
      out.1.Started? ==>
        && out.1.pages == SinceStart(s.log + [msg], msg.pid)
        && exists r :: r in out.0.records && r.pid == msg.pid && r.worker == Worker(worker)
                       && r.pages == out.1.pages && |r.pages| == r.total
  {
    GatherKeeps(s, msg, now);
    var g := Gather(s, msg, now);
    if g.outcome.Started? && created {
      AttachKeeps(g.router, Find(g.router.records, msg.pid), worker);
    }
  }

  lemma AttachKeeps(s: Router, k: nat, worker: nat)
    requires Inv(s) && k < |s.records| && |s.records[k].pages| == s.records[k].total
    requires worker !in s.busy && !Running(s.records[k], s.busy)
    ensures var r := s.records[k].(worker := Worker(worker));
      var t := s.(records := s.records[k := r], busy := s.busy[worker := r.pid]);
      && Inv(t) && r in t.records
      && (forall q :: q in s.records && Running(q, s.busy) ==> q in t.records)
  {
    var r := s.records[k].(worker := Worker(worker));
    UpdatedRecords(s.records, k, r);
    assert s.records[k] in s.records;
    forall q | q in s.records && Running(q, s.busy)
      ensures q.pid != r.pid
    {
      FindOnly(s.records, q);
      FindOnly(s.records, s.records[k]);
    }
    var t := s.(records := s.records[k := r]);
    forall q | q in t.records
      ensures RecordOk(q, t.log)
    {
      assert RecordOk(s.records[k], s.log);
      if q.pid != r.pid {
        assert RecordOk(q, s.log);
      }
    }
    InvKept(s, t);
  }

  lemma TargetPages(s: Router, msg: Message)
    requires Inv(s) && (Find(s.records, msg.pid) < |s.records| || msg.status == Start)
    ensures var rs := Target(s.records, msg); var cur := rs[Find(rs, msg.pid)];
      && (msg.status == Start ==> cur.pages == [] && cur.worker == NoWorker)
      && (msg.status != Start ==> cur.pages == SinceStart(s.log, msg.pid))
      && (Find(s.records, msg.pid) == |s.records| || !Running(s.records[Find(s.records, msg.pid)], s.busy) ==> !Running(cur, s.busy))
  {
    var rs := Target(s.records, msg);
    if msg.status == Start {
      assert rs[0].pid == msg.pid;
    } else {
      assert RecordOk(rs[Find(rs, msg.pid)], s.log);
    }
  }

  lemma DroppedKeeps(s: Router, t: Router, pid: int)
    requires Inv(s) && OnePerPid(t.records) && t == s.(records := t.records)
    requires forall r :: r in t.records ==> r in s.records
    requires forall r :: r in s.records && r.pid != pid ==> r in t.records
    requires forall r :: r in s.records && Running(r, s.busy) ==> r.pid != pid
    ensures Inv(t) && forall r :: r in s.records && Running(r, s.busy) ==> r in t.records
  {
    InvKept(s, t);
  }

  lemma StoredKeeps(s: Router, rs: seq<Record>, msg: Message, k: nat, full: Record)
    requires Inv(s) && OnePerPid(rs) && k < |rs| && rs[k].pid == msg.pid == full.pid
    requires forall r: Record :: r.pid != msg.pid ==> (r in rs <==> r in s.records)
    requires forall r :: r in s.records && Running(r, s.busy) ==> r.pid != msg.pid
    requires |full.pages| <= full.total && full.pages == SinceStart(s.log + [msg], msg.pid)
    ensures var t := s.(records := rs[k := full], log := s.log + [msg]);
      && Inv(t) && full in t.records
      && forall r :: r in s.records && Running(r, s.busy) ==> r in t.records
  {
    UpdatedRecords(rs, k, full);
    var t := s.(records := rs[k := full], log := s.log + [msg]);
    forall r | r in t.records
      ensures RecordOk(r, t.log)
    {
      if r.pid != msg.pid {
        assert RecordOk(r, s.log);
        LogOthers(s.log, msg, r.pid);
      }
    }
    InvKept(s, t);
  }

  /** Every step keeps the invariant, and only a worker's own end removes the record it works on. */
  lemma InvNext(cfg: Settings, s: Router, e: Event)
    requires Inv(s) && Possible(s, e)
    ensures Inv(Next(cfg, s, e))
    ensures forall r :: r in s.records && Running(r, s.busy) && e != Finish(r.worker.id) ==> r in Next(cfg, s, e).records
  {
    match e
    case Deliver(m, now, w, created) =>
      InvRecycled(cfg, s, now);
      CollectKeeps(Recycled(cfg, s, now), m, now, w, created);
    case Recycle(now) => InvRecycled(cfg, s, now);
    case Finish(w) =>
      RemovedRecords(s.records, s.busy[w]);
      assert WorkerOk(s.records, w, s.busy[w]);
      forall r | r in s.records && Running(r, s.busy) && r.worker.id != w
        ensures r.pid != s.busy[w]
      {
        var own :| own in s.records && own.pid == s.busy[w] && own.worker == Worker(w);
        FindOnly(s.records, own);
        FindOnly(s.records, r);
      }
      InvKept(s, Next(cfg, s, e));
    case Abort(w) => InvKept(s, Next(cfg, s, e));
  }

  // ----- runs

  ghost predicate Run(cfg: Settings, s: Router, es: seq<Event>, t: Router)
    decreases |es|
  {
    if es == [] then s == t else Possible(s, es[0]) && Run(cfg, Next(cfg, s, es[0]), es[1..], t)
  }

  ghost predicate Init(s: Router) {
    s == Router([], 0, map[], [])
  }

  lemma {:induction false} InvRun(cfg: Settings, s: Router, es: seq<Event>, t: Router)
    requires Inv(s) && Run(cfg, s, es, t)
    ensures Inv(t)
    decreases |es|
  {
    if es != [] {
      InvNext(cfg, s, es[0]);
      InvRun(cfg, Next(cfg, s, es[0]), es[1..], t);
    }
  }

  /** In every reachable router there is at most one record per process and it holds, in order, exactly
      the pages stored for that process since its last first piece; and the next message to arrive
      starts a worker only on a complete list of that kind. */
  lemma ReassemblySafe(cfg: Settings, s: Router, es: seq<Event>, t: Router, msg: Message, now: int, worker: nat, created: bool)
    requires Init(s) && Run(cfg, s, es, t) && Possible(t, Deliver(msg, now, worker, created))
    ensures OnePerPid(t.records)
    ensures forall r :: r in t.records ==> |r.pages| <= r.total && r.pages == SinceStart(t.log, r.pid)
    ensures var out := Handle(cfg, t, msg, now, worker, created);
      out.1.Started? ==>
        && out.1.pages == SinceStart(t.log + [msg], msg.pid)
        && exists r :: r in out.0.records && r.pid == msg.pid && r.worker == Worker(worker)
                       && r.pages == out.1.pages && |r.pages| == r.total
  {
    InvRun(cfg, s, es, t);
    assert forall r :: r in t.records ==> RecordOk(r, t.log);
    InvRecycled(cfg, t, now);
    if 0 < msg.pid <= cfg.pidMax {
      CollectKeeps(Recycled(cfg, t, now), msg, now, worker, created);
    }
  }

  /** As long as a worker runs, its record stays in the list, unchanged, whatever else happens. */
  lemma {:induction false} WorkerKeepsRecord(cfg: Settings, s: Router, es: seq<Event>, t: Router, r: Record)
    requires Inv(s) && Run(cfg, s, es, t) && r in s.records && Running(r, s.busy)
    requires forall e :: e in es ==> e != Finish(r.worker.id) && e != Abort(r.worker.id)
    ensures r in t.records && Running(r, t.busy)
    decreases |es|
  {
    if es != [] {
      assert es[0] in es;
      InvNext(cfg, s, es[0]);
      StillRunning(cfg, s, es[0], r);
      forall e | e in es[1..]
        ensures e != Finish(r.worker.id) && e != Abort(r.worker.id)
      {
        assert e in es;
      }
      WorkerKeepsRecord(cfg, Next(cfg, s, es[0]), es[1..], t, r);
    }
  }

  lemma StillRunning(cfg: Settings, s: Router, e: Event, r: Record)
    requires Possible(s, e) && Running(r, s.busy) && e != Finish(r.worker.id) && e != Abort(r.worker.id)
    ensures Running(r, Next(cfg, s, e).busy)
  {
    hide Find;
    hide RemovePid;
    hide DropStale;
  }
}
