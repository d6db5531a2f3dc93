/**
 Rounds of a task's thread pool. The timer thread edits its process list, pushes one job per
 process, waits until as many jobs were executed as were scheduled, and resets both counters. Any
 number of pool threads take jobs, run them and count them, each at its own pace.
 */
module RoundBarrier {

  /** One pool thread; `Finished` has run its job and not yet counted it. */
  datatype Worker = Waiting | Running(job: nat) | Finished(job: nat)

  /** The timer thread: between rounds, about to push job `k`, waiting for `target` executed jobs, and
      between the two stores of the reset. */
  datatype Driver = Resting | Pushing(k: nat) | Loading | Polling(target: nat) | Resetting | HalfReset

  /** `pids` is the process list, by node; `freed` are the nodes freed so far; `ran` remembers the jobs
      run to the end in this round. */
  datatype Pool = Pool(
    queue: seq<nat>, scheduled: nat, executed: nat, workers: seq<Worker>,
    driver: Driver, pids: seq<nat>, freed: set<nat>, ran: multiset<nat>)

  datatype Action =
    | Edit(next: seq<nat>, gone: set<nat>) // the list is brought up to date and a round begins
    | EditFails(next: seq<nat>, gone: set<nat>) // the list could not be read: no round
    | Push | Notify | Load | Poll | ResetScheduled | ResetExecuted
    | Pick(i: nat) | Run(i: nat) | Count(i: nat)

  ghost predicate NoRepeat(s: seq<nat>) {
    forall i, j :: 0 <= i < j < |s| ==> s[i] != s[j]
  }

  /** What the reconciliation of the list guarantees: no node twice, no freed node linked. */
  ghost predicate Sound(next: seq<nat>, freed: set<nat>) {
    NoRepeat(next) && forall i :: 0 <= i < |next| ==> next[i] !in freed
  }

  ghost predicate Enabled(s: Pool, a: Action) {
    match a
    case Edit(next, gone) => s.driver == Resting && next != [] && Sound(next, s.freed + gone)
    case EditFails(next, gone) => s.driver == Resting && Sound(next, s.freed + gone)
    case Push => s.driver.Pushing? && s.driver.k < |s.pids|
    case Notify => s.driver.Pushing? && s.driver.k == |s.pids|
    case Load => s.driver == Loading
    case Poll => s.driver.Polling? && s.executed == s.driver.target
    case ResetScheduled => s.driver == Resetting
    case ResetExecuted => s.driver == HalfReset
    case Pick(i) => i < |s.workers| && s.workers[i] == Waiting && s.scheduled != 0 && s.queue != []
    case Run(i) => i < |s.workers| && s.workers[i].Running?
    case Count(i) => i < |s.workers| && s.workers[i].Finished?
  }

  ghost function Apply(s: Pool, a: Action): Pool
    requires Enabled(s, a)
  {
    match a
    case Edit(next, gone) => s.(pids := next, freed := s.freed + gone, driver := Pushing(0), ran := multiset{})
    case EditFails(next, gone) => s.(pids := next, freed := s.freed + gone)
    case Push => s.(queue := [s.pids[s.driver.k]] + s.queue, scheduled := s.scheduled + 1, driver := Pushing(s.driver.k + 1))
    case Notify => s.(driver := Loading)
    case Load => s.(driver := Polling(s.scheduled))
    case Poll => s.(driver := Resetting)
    case ResetScheduled => s.(scheduled := 0, driver := HalfReset)
    case ResetExecuted => s.(executed := 0, driver := Resting)
    case Pick(i) => s.(queue := s.queue[1..], workers := s.workers[i := Running(s.queue[0])])
    case Run(i) => s.(workers := s.workers[i := Finished(s.workers[i].job)], ran := s.ran + multiset{s.workers[i].job})
    case Count(i) => s.(workers := s.workers[i := Waiting], executed := s.executed + 1)
  }

  /** How many threads hold a job they have not counted yet. */
  ghost function Busy(ws: seq<Worker>): nat {
    if ws == [] then 0 else (if ws[0] == Waiting then 0 else 1) + Busy(ws[1..])
  }

  /** How many threads run the job of `p`. */
  ghost function Held(ws: seq<Worker>, p: nat): nat {
    if ws == [] then 0 else (if ws[0] == Running(p) then 1 else 0) + Held(ws[1..], p)
  }

  ghost predicate AllWaiting(ws: seq<Worker>) {
    forall i :: 0 <= i < |ws| ==> ws[i] == Waiting
  }

  /** How many jobs of the list were pushed. */
  ghost function Pushed(s: Pool): nat {
    match s.driver
    case Pushing(k) => k
    case _ => |s.pids|
  }

  /** The job of `p` was pushed as often as it is queued, being run, or run. */
  ghost predicate Tallied(s: Pool, p: nat) {
    Pushed(s) <= |s.pids| && multiset(s.pids[..Pushed(s)])[p] == multiset(s.queue)[p] + Held(s.workers, p) + s.ran[p]
  }

  /** During a round: every job scheduled is executed, queued or with a thread; and every process whose
      job was pushed is exactly once queued, being run, or run. */
  ghost predicate InRound(s: Pool) {
    && s.scheduled == s.executed + |s.queue| + Busy(s.workers)
    && s.scheduled == Pushed(s) <= |s.pids|
    && forall p :: Tallied(s, p)
  }

  ghost predicate Quiet(s: Pool) {
    s.queue == [] && AllWaiting(s.workers)
  }

  ghost predicate Inv(s: Pool) {
    && Sound(s.pids, s.freed)
    && match s.driver
       case Resting => Quiet(s) && s.scheduled == 0 && s.executed == 0
       case HalfReset => Quiet(s) && s.scheduled == 0
       case Pushing(_) => InRound(s)
       case Loading => InRound(s)
       case Polling(target) => InRound(s) && target == s.scheduled
       case Resetting => InRound(s) && s.executed == s.scheduled
  }

  // ----- counting over the threads

  lemma {:induction false} BusyChanged(ws: seq<Worker>, i: nat, w: Worker)
    requires i < |ws|
    ensures Busy(ws[i := w]) + (if ws[i] == Waiting then 0 else 1) == Busy(ws) + (if w == Waiting then 0 else 1)
  {
    if i == 0 {
      assert ws[0 := w][1..] == ws[1..];
    } else {
      assert ws[i := w][1..] == ws[1..][i - 1 := w];
      BusyChanged(ws[1..], i - 1, w);
    }
  }

  lemma {:induction false} HeldChanged(ws: seq<Worker>, i: nat, w: Worker, p: nat)
    requires i < |ws|
    ensures Held(ws[i := w], p) + (if ws[i] == Running(p) then 1 else 0) == Held(ws, p) + (if w == Running(p) then 1 else 0)
  {
    if i == 0 {
      assert ws[0 := w][1..] == ws[1..];
    } else {
      assert ws[i := w][1..] == ws[1..][i - 1 := w];
      HeldChanged(ws[1..], i - 1, w, p);
    }
  }

  lemma {:induction false} IdleThreads(ws: seq<Worker>)
    ensures Busy(ws) == 0 <==> AllWaiting(ws)
  {
    if ws != [] {
      IdleThreads(ws[1..]);
      assert forall i :: 0 < i < |ws| ==> ws[i] == ws[1..][i - 1];
    }
  }

  lemma {:induction false} NothingHeld(ws: seq<Worker>, p: nat)
    requires AllWaiting(ws)
    ensures Held(ws, p) == 0
  {
    if ws != [] {
      NothingHeld(ws[1..], p);
    }
  }

  lemma {:induction false} HeldBy(ws: seq<Worker>, i: nat)
    requires i < |ws| && ws[i].Running?
    ensures Held(ws, ws[i].job) > 0
  {
    if i > 0 {
      HeldBy(ws[1..], i - 1);
    }
  }

  // ----- every step keeps the invariant

  lemma PushKeeps(s: Pool)
    requires Inv(s) && Enabled(s, Push)
    ensures Inv(Apply(s, Push))
  {
    var k := s.driver.k;
    var t := Apply(s, Push);
    assert s.pids[..k + 1] == s.pids[..k] + [s.pids[k]];
    forall p
      ensures Tallied(t, p)
    {
      assert Tallied(s, p);
    }
  }

  lemma PickKeeps(s: Pool, i: nat)
    requires Inv(s) && Enabled(s, Pick(i))
    ensures Inv(Apply(s, Pick(i)))
  {
    var t := Apply(s, Pick(i));
    BusyChanged(s.workers, i, Running(s.queue[0]));
    assert s.queue == [s.queue[0]] + s.queue[1..];
    forall p
      ensures Tallied(s, p) ==> Tallied(t, p)
    {
      HeldChanged(s.workers, i, Running(s.queue[0]), p);
    }
  }

  lemma RunKeeps(s: Pool, i: nat)
    requires Inv(s) && Enabled(s, Run(i))
    ensures Inv(Apply(s, Run(i)))
  {
    var t := Apply(s, Run(i));
    var done := Finished(s.workers[i].job);
    BusyChanged(s.workers, i, done);
    forall p
      ensures Tallied(s, p) ==> Tallied(t, p)
    {
      HeldChanged(s.workers, i, done, p);
    }
  }

  lemma CountKeeps(s: Pool, i: nat)
    requires Inv(s) && Enabled(s, Count(i))
    ensures Inv(Apply(s, Count(i)))
  {
    var t := Apply(s, Count(i));
    BusyChanged(s.workers, i, Waiting);
    forall p
      ensures Tallied(s, p) ==> Tallied(t, p)
    {
      HeldChanged(s.workers, i, Waiting, p);
    }
  }

  lemma EditKeeps(s: Pool, a: Action)
    requires Inv(s) && a.Edit? && Enabled(s, a)
    ensures Inv(Apply(s, a))
  {
    var t := Apply(s, a);
    IdleThreads(s.workers);
    forall p
      ensures Tallied(t, p)
    {
      NothingHeld(s.workers, p);
      assert t.pids[..0] == [];
    }
  }

  lemma DriverKeeps(s: Pool, a: Action)
    requires Inv(s) && (a == Notify || a == Load || a == Poll) && Enabled(s, a)
    ensures Inv(Apply(s, a))
  {
    forall p
      ensures Tallied(Apply(s, a), p)
    {
      assert Tallied(s, p);
    }
  }

  lemma InvStep(s: Pool, a: Action)
    requires Inv(s) && Enabled(s, a)
    ensures Inv(Apply(s, a))
  {
    hide Tallied;
    match a
    case Push => PushKeeps(s);
    case Pick(i) => PickKeeps(s, i);
    case Run(i) => RunKeeps(s, i);
    case Count(i) => CountKeeps(s, i);
    case Edit(_, _) => EditKeeps(s, a);
    case ResetScheduled => IdleThreads(s.workers);
    case Notify => DriverKeeps(s, a);
    case Load => DriverKeeps(s, a);
    case Poll => DriverKeeps(s, a);
    case ResetExecuted =>
    case EditFails(_, _) =>
  }

  // ----- runs

  ghost predicate Steps(s: Pool, actions: seq<Action>, t: Pool)
    decreases |actions|
  {
    if actions == [] then s == t else Enabled(s, actions[0]) && Steps(Apply(s, actions[0]), actions[1..], t)
  }

  /** A pool just created, with any number of threads, and a task without processes. */
  ghost predicate Created(s: Pool) {
    && s.queue == [] && s.scheduled == 0 && s.executed == 0 && AllWaiting(s.workers)
    && s.driver == Resting && s.pids == []
  }

  lemma {:induction false} InvRun(s: Pool, actions: seq<Action>, t: Pool)
    requires Inv(s) && Steps(s, actions, t)
    ensures Inv(t)
    decreases |actions|
  {
    if actions != [] {
      InvStep(s, actions[0]);
      InvRun(Apply(s, actions[0]), actions[1..], t);
    }
  }

  /**
   In every reachable state: while a round is on, every scheduled job is executed, queued or with a
   thread; the counters are reset only when every process of the list had its job run exactly once and
   nothing is queued or held; and no job that is queued or being run refers to a freed node.
   */
  lemma BarrierSafe(s: Pool, actions: seq<Action>, t: Pool)
    requires Created(s) && Steps(s, actions, t)
    ensures t.driver != Resting && t.driver != HalfReset ==> t.scheduled == t.executed + |t.queue| + Busy(t.workers)
    ensures t.driver == Resetting ==> Quiet(t) && t.ran == multiset(t.pids) && forall p :: t.ran[p] <= 1
    ensures forall i :: 0 <= i < |t.queue| ==> t.queue[i] in t.pids && t.queue[i] !in t.freed
    ensures forall i :: 0 <= i < |t.workers| && t.workers[i].Running? ==> t.workers[i].job in t.pids && t.workers[i].job !in t.freed
  {
    InvRun(s, actions, t);
    IdleThreads(t.workers);
    if t.driver == Resetting {
      assert t.pids[..|t.pids|] == t.pids;
      Once(t.pids);
      forall p
        ensures t.ran[p] == multiset(t.pids)[p]
      {
        assert Tallied(t, p);
        NothingHeld(t.workers, p);
      }
    }
    forall i | 0 <= i < |t.queue|
      ensures t.queue[i] in t.pids && t.queue[i] !in t.freed
    {
      Member(t, t.queue[i]);
    }
    forall i | 0 <= i < |t.workers| && t.workers[i].Running?
      ensures t.workers[i].job in t.pids && t.workers[i].job !in t.freed
    {
      HeldBy(t.workers, i);
      Member(t, t.workers[i].job);
    }
  }

  lemma Member(t: Pool, p: nat)
    requires Inv(t) && (p in t.queue || Held(t.workers, p) > 0)
    ensures p in t.pids && p !in t.freed
  {
    if Quiet(t) {
      NothingHeld(t.workers, p);
    } else {
      assert Tallied(t, p);
      var pushed := t.pids[..Pushed(t)];
      assert p in t.queue ==> multiset(t.queue)[p] > 0;
      assert p in multiset(pushed);
      assert p in pushed;
    }
  }

  lemma {:induction false} Once(s: seq<nat>)
    requires NoRepeat(s)
    ensures forall p :: multiset(s)[p] <= 1
  {
    if s != [] {
      var front := s[..|s| - 1];
      Once(front);
      assert s == front + [s[|s| - 1]];
      assert s[|s| - 1] !in front;
    }
  }

  /** The edit of the list at the start of a round frees no node that a thread or the queue still holds,
      whatever nodes it frees. */
  lemma EditFreesNothingHeld(s: Pool, actions: seq<Action>, t: Pool, a: Action)
    requires Created(s) && Steps(s, actions, t) && (a.Edit? || a.EditFails?) && Enabled(t, a)
    ensures forall i :: 0 <= i < |t.workers| ==> t.workers[i] == Waiting
    ensures t.queue == []
  {
    InvRun(s, actions, t);
  }

  /** A node that an edit freed is never again in the list, queued or being run. */
  lemma {:induction false} FreedStays(s: Pool, actions: seq<Action>, t: Pool)
    requires Steps(s, actions, t)
    ensures s.freed <= t.freed
    ensures forall i :: 0 <= i < |actions| && actions[i].Edit? ==> actions[i].gone <= t.freed
    ensures forall i :: 0 <= i < |actions| && actions[i].EditFails? ==> actions[i].gone <= t.freed
    decreases |actions|
  {
    if actions != [] {
      FreedStays(Apply(s, actions[0]), actions[1..], t);
      forall i | 1 <= i < |actions|
        ensures actions[i] == actions[1..][i - 1]
      {
      }
    }
  }

  lemma FreedNeverUsed(s: Pool, actions: seq<Action>, t: Pool, i: nat, n: nat)
    requires Created(s) && Steps(s, actions, t) && i < |actions|
    requires (actions[i].Edit? || actions[i].EditFails?) && n in actions[i].gone
    ensures n !in t.pids && n !in t.queue && forall k :: 0 <= k < |t.workers| ==> t.workers[k] != Running(n)
  {
    FreedStays(s, actions, t);
    BarrierSafe(s, actions, t);
    InvRun(s, actions, t);
  }

  // ----- every round ends

  /** What a thread has still to do with the job it holds: run and count it, or count it. */
  ghost function Share(w: Worker): nat {
    match w case Waiting => 0 case Running(_) => 2 case Finished(_) => 1
  }

  ghost function Work(ws: seq<Worker>): nat {
    if ws == [] then 0 else Share(ws[0]) + Work(ws[1..])
  }

  /** The steps to the end of the round: push, pick, run and count every job, and the five of the driver. */
  ghost function Remaining(s: Pool): int {
    3 * |s.queue| + Work(s.workers) +
    match s.driver
    case Pushing(k) => 4 * (|s.pids| - k) + 5
    case Loading => 4
    case Polling(_) => 3
    case Resetting => 2
    case HalfReset => 1
    case Resting => 0
  }

  lemma {:induction false} WorkChanged(ws: seq<Worker>, i: nat, w: Worker)
    requires i < |ws|
    ensures Work(ws[i := w]) + Share(ws[i]) == Work(ws) + Share(w)
  {
    if i == 0 {
      assert ws[0 := w][1..] == ws[1..];
    } else {
      assert ws[i := w][1..] == ws[1..][i - 1 := w];
      WorkChanged(ws[1..], i - 1, w);
    }
  }

  lemma {:induction false} NoWork(ws: seq<Worker>)
    requires AllWaiting(ws)
    ensures Work(ws) == 0
  {
    if ws != [] {
      NoWork(ws[1..]);
    }
  }

  ghost predicate InsideRound(a: Action) {
    !a.Edit? && !a.EditFails?
  }

  /** Every step of any thread within a round brings its end exactly one step nearer. */
  lemma OneStepNearer(s: Pool, a: Action)
    requires Enabled(s, a) && InsideRound(a)
    ensures Remaining(Apply(s, a)) == Remaining(s) - 1
  {
    match a
    case Pick(i) => WorkChanged(s.workers, i, Running(s.queue[0]));
    case Run(i) => WorkChanged(s.workers, i, Finished(s.workers[i].job));
    case Count(i) => WorkChanged(s.workers, i, Waiting);
    case _ =>
  }

  lemma {:induction false} StepsCounted(s: Pool, actions: seq<Action>, t: Pool)
    requires Steps(s, actions, t) && forall i :: 0 <= i < |actions| ==> InsideRound(actions[i])
    ensures |actions| == Remaining(s) - Remaining(t)
    decreases |actions|
  {
    if actions != [] {
      OneStepNearer(s, actions[0]);
      StepsCounted(Apply(s, actions[0]), actions[1..], t);
    }
  }

  /** As long as the round is not over, some thread can go on, if there is any pool thread at all. */
  lemma NeverStuck(s: Pool) returns (a: Action)
    requires Inv(s) && s.driver != Resting && s.workers != []
    ensures InsideRound(a) && Enabled(s, a)
  {
    match s.driver
    case Pushing(k) => a := if k < |s.pids| then Push else Notify;
    case Loading => a := Load;
    case Resetting => a := ResetScheduled;
    case HalfReset => a := ResetExecuted;
    case Polling(target) =>
      if s.executed == target {
        a := Poll;
      } else if i :| 0 <= i < |s.workers| && s.workers[i] != Waiting {
        a := if s.workers[i].Running? then Run(i) else Count(i);
      } else {
        assert AllWaiting(s.workers);
        IdleThreads(s.workers);
        a := Pick(0);
      }
  }

  /**
   A round over `next` ends after exactly four steps for every process and five of the driver, however the
   threads interleave, and until then some thread can always go on.
   */
  lemma RoundEnds(s: Pool, before: seq<Action>, r: Pool, next: seq<nat>, gone: set<nat>, actions: seq<Action>, t: Pool)
    requires Created(s) && Steps(s, before, r) && Enabled(r, Edit(next, gone))
    requires Steps(Apply(r, Edit(next, gone)), actions, t) && forall i :: 0 <= i < |actions| ==> InsideRound(actions[i])
    ensures |actions| <= 4 * |next| + 5
    ensures t.driver == Resting <==> |actions| == 4 * |next| + 5
    ensures t.driver != Resting && t.workers != [] ==> exists a :: InsideRound(a) && Enabled(t, a)
  {
    InvRun(s, before, r);
    var begun := Apply(r, Edit(next, gone));
    InvStep(r, Edit(next, gone));
    NoWork(r.workers);
    StepsCounted(begun, actions, t);
    InvRun(begun, actions, t);
    if t.driver == Resting {
      NoWork(t.workers);
    } else if t.workers != [] {
      var a := NeverStuck(t);
    }
  }
}
