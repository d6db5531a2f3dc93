/** The receiving daemon itself: a list of records updated message by message. */
module MemdcdRouter {
  import opened MemdcdProtocol
  import opened MemdcdReceiver

  class Daemon {
    const cfg: Settings
    var records: seq<Record>
    var last: int
    var busy: map<nat, int>
    ghost var log: seq<Message>

    ghost function State(): Router
      reads this
    {
      Router(records, last, busy, log)
    }

    constructor (cfg: Settings)
      ensures this.cfg == cfg && Init(State())
    {
      this.cfg, records, last, busy, log := cfg, [], 0, map[], [];
    }

    /** `migrate_process_search`. */
    method Search(pid: int) returns (i: nat)
      ensures i == Find(records, pid)
    {
      i := 0;
      while i < |records| && records[i].pid != pid
        invariant 0 <= i <= |records|
        invariant Find(records, pid) == i + Find(records[i..], pid)
      {
        assert records[i..][1..] == records[i + 1..];
        i := i + 1;
      }
    }

    /** `migrate_process_remove`. */
    method Remove(pid: int)
      modifies this`records
      ensures records == RemovePid(old(records), pid)
    {
      var i := Search(pid);
      if i < |records| {
        records := records[..i] + records[i + 1..];
      }
    }

    /** `migrate_process_add`: the new record goes to the head of the list. */
    method Add(pid: int, total: nat)
      modifies this`records
      ensures records == [Record(pid, total, [], 0, NoWorker)] + old(records)
    {
      records := [Record(pid, total, [], 0, NoWorker)] + records;
    }

    /** `migrate_process_recycle`. */
    method RecyclePass(now: int)
      modifies this`records, this`last
      ensures State() == Recycled(cfg, old(State()), now)
      ensures PassDone(cfg, old(State()), State(), now)
    {
      hide DropStale;
      hide PassDone;
      RecycledExactly(cfg, State(), now);
      if cfg.timeout == 0 {
        return;
      }
      if last == 0 || now - last < cfg.timeout {
        last := now;
        return;
      }
      last := now;
      DropStaleRecords(now);
    }

    /** The walk over the list that frees the stale records. */
    method DropStaleRecords(now: int)
      modifies this`records
      ensures records == DropStale(old(records), now, cfg.timeout, busy)
    {
      hide DropStale;
      hide Stale;
      var i := 0;
      ghost var all := records;
      ghost var done, rest := [], records;
      while i < |records|
        invariant i == |done| && records == done + rest
        invariant DropStale(all, now, cfg.timeout, busy) == done + DropStale(rest, now, cfg.timeout, busy)
        decreases |rest|
      {
        DropStaleHead(rest, now, cfg.timeout, busy);
        SplitAt(done, rest);
        Regroup(done, rest, DropStale(rest[1..], now, cfg.timeout, busy));
        var running := records[i].worker.Worker? && records[i].worker.id in busy;
        if now - records[i].stamp > cfg.timeout && !running {
          records := records[..i] + records[i + 1..];
        } else {
          done := done + [rest[0]];
          i := i + 1;
        }
        rest := rest[1..];
      }
      DropStaleHead([], now, cfg.timeout, busy);
    }

    lemma SplitAt(a: seq<Record>, b: seq<Record>)
      requires b != []
      ensures (a + b)[|a|] == b[0] && (a + b)[..|a|] == a && (a + b)[|a| + 1..] == b[1..]
    {
    }

    lemma Regroup(a: seq<Record>, b: seq<Record>, c: seq<Record>)
      requires b != []
      ensures a + b == (a + [b[0]]) + b[1..] && a + ([b[0]] + c) == (a + [b[0]]) + c
    {
      assert b == [b[0]] + b[1..];
    }

    lemma DropStaleHead(rs: seq<Record>, now: int, timeout: nat, busy: map<nat, int>)
      ensures DropStale(rs, now, timeout, busy)
           == if rs == [] then []
              else if now - rs[0].stamp > timeout && !(rs[0].worker.Worker? && rs[0].worker.id in busy)
              then DropStale(rs[1..], now, timeout, busy)
              else [rs[0]] + DropStale(rs[1..], now, timeout, busy)
    {
    }

    /** `migrate_process_collect_pages`: store one message; `ready` when its process's list, at
        position `i`, is complete and it is time to start a worker. */
    method CollectPages(msg: Message, now: int) returns (ready: bool, i: nat)
      modifies this`records, this`last, this`log
      ensures var g := Gather(Recycled(cfg, old(State()), now), msg, now);
        && State() == g.router && (ready <==> g.outcome.Started?)
        && (ready ==> i == Find(records, msg.pid))
    {
      hide Find;
      hide Recycled;
      hide Gather;
      hide Store;
      ready := false;
      RecyclePass(now);
      ghost var s := State();
      GatherCases(s, msg, now);
      i := Search(msg.pid);
      if i < |records| {
        if records[i].worker.Worker? && records[i].worker.id in busy {
          return;
        }
        if msg.status == Start {
          Remove(msg.pid);
          i := |records|;
        }
      }
      if i == |records| {
        if msg.status != Start {
          return;
        }
        Add(msg.pid, msg.total);
        i := 0;
      }
      StoreIgnores(s, State(), msg, now);
      ready := StorePages(msg, now, i);
    }

    lemma GatherCases(s: Router, msg: Message, now: int)
      ensures var i := Find(s.records, msg.pid); var g := Gather(s, msg, now);
        if i < |s.records| && Running(s.records[i], s.busy) then g == Gathered(s, Discarded)
        else if i == |s.records| && msg.status != Start then g == Gathered(s, Discarded)
        else g == Store(s, Target(s.records, msg), msg, now)
      ensures msg.status == Start ==> Find(Target(s.records, msg), msg.pid) == 0
    {
    }

    lemma StoreIgnores(s: Router, t: Router, msg: Message, now: int)
      requires t == s.(records := t.records) && Find(t.records, msg.pid) < |t.records|
      ensures Store(s, t.records, msg, now) == Store(t, t.records, msg, now)
    {
    }

    /** The second half of `migrate_process_collect_pages`, with the process's record at `i`. */
    method StorePages(msg: Message, now: int, i: nat) returns (ready: bool)
      requires i == Find(records, msg.pid) < |records|
      modifies this`records, this`log
      ensures var g := Store(old(State()), old(records), msg, now);
        && State() == g.router && (ready <==> g.outcome.Started?)
        && (ready ==> i == Find(records, msg.pid))
    {
      hide RemovePid;
      ready := false;
      if |records[i].pages| + |msg.payload| > records[i].total {
        Remove(msg.pid);
        return;
      }
      ghost var rs := records;
      CopyPages(i, msg.payload, now);
      SamePlace(rs, i, records[i]);
      hide Find;
      if msg.status == End && |records[i].pages| != records[i].total {
        Remove(msg.pid);
        return;
      }
      log := log + [msg];
      ready := msg.status != Process && |records[i].pages| == records[i].total;
    }

    lemma SamePlace(rs: seq<Record>, k: nat, r: Record)
      requires k == Find(rs, r.pid) < |rs|
      ensures Find(rs[k := r], r.pid) == k
    {
      var q := rs[k := r];
      var j := Find(q, r.pid);
      assert q[k].pid == r.pid;
      assert forall i :: 0 <= i < k ==> q[i] == rs[i];
    }

    /** `migrate_process_get_pages`: handle one message, starting a worker when its list is complete. */
    method GetPages(msg: Message, now: int, worker: nat, created: bool) returns (rc: int)
      modifies this
      ensures State() == Handle(cfg, old(State()), msg, now, worker, created).0
      ensures rc == 0 <==> Handle(cfg, old(State()), msg, now, worker, created).1.Started?
      ensures rc == 0 || rc == -1
    {
      hide Find;
      hide Gather;
      hide Recycled;
      if msg.pid <= 0 || msg.pid > cfg.pidMax {
        return -1;
      }
      var ready, i := CollectPages(msg, now);
      if !ready {
        return -1;
      }
      if !created {
        return -1;
      }
      records := records[i := records[i].(worker := Worker(worker))];
      busy := busy[worker := msg.pid];
      return 0;
    }

    /** The end of `memdcd_migrate`: the worker removes the record of its process. */
    method WorkerEnd(worker: nat)
      requires worker in busy
      modifies this`records, this`busy
      ensures Possible(old(State()), Finish(worker)) && State() == Next(cfg, old(State()), Finish(worker))
    {
      Remove(busy[worker]);
      busy := busy - {worker};
    }

    method CopyPages(i: nat, payload: seq<Page>, now: int)
      requires i < |records|
      modifies this`records
      ensures records == old(records)[i := old(records)[i].(pages := old(records)[i].pages + payload, stamp := now)]
    {
      var r := records[i];
      var pages := r.pages;
      for k := 0 to |payload|
        invariant pages == r.pages + payload[..k]
      {
        pages := pages + [payload[k]];
      }
      assert payload[..|payload|] == payload;
      records := records[i := r.(pages := pages, stamp := now)];
    }
  }
}
