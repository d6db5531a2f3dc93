/**
 The parameter blocks of the cslide engine and the hand-over between its two threads. The control
 thread allocates, starts, stops and drops blocks; the worker thread picks up started blocks, uses
 them in its rounds, and frees dropped ones. Every step below is one atomic action of one thread.
 */
module Factory {
  type Id = nat

  datatype Ptr = Null | To(id: Id)

  datatype BlockState = None | Working | Remove | Free

  /** `owned`: the control thread still refers to the block. `freed`: how often it was released. */
  datatype Block = Block(state: BlockState, owned: bool, freed: nat)

  /** The control thread is between operations; or it has allocated a block for a task added to a started
      project, which it starts next; or it is inside `factory_add_pid_params` with the state already
      written and the block not linked yet. */
  datatype Control = Idle | Adding(id: Id) | Linking(id: Id)

  /** The worker's position in `cslide_main`; `final` marks the update after the loop. */
  datatype Worker =
    | Update(final: bool)
    | Splice(final: bool)
    | Sweep(final: bool, pos: nat)
    | CheckFinish
    | InRound
    | Destroyed

  datatype System = System(
    blocks: map<Id, Block>,
    toAdd: seq<Id>, toAddTail: Ptr,
    taken: seq<Id>, takenTail: Ptr, // the worker's local copies of the two
    working: seq<Id>,
    started: bool, // `start` of the project
    finish: bool,
    control: Control,
    worker: Worker)

  datatype Action =
    | Alloc(id: Id) | Start(id: Id) | Link | Stop(id: Id) | Drop(id: Id) | MarkStarted | MarkStopped | SetFinish
    | Take | Join | SweepOne | SweepDone | ReadFinish | EndRound

  ghost predicate Owns(s: System, id: Id) {
    id in s.blocks && s.blocks[id].owned
  }

  /** When each action can happen. Blocks are started before their project is marked started, or when their
      task is added to a started one; they are stopped only in a started project. The engine is asked to
      finish only after every block was dropped. */
  ghost predicate Enabled(s: System, a: Action) {
    match a
    case Alloc(id) => s.control == Idle && !s.finish && id !in s.blocks
    case Start(id) => Owns(s, id) && (s.control == Adding(id) || (s.control == Idle && !s.started))
    case Link => s.control.Linking?
    case Stop(id) => s.control == Idle && s.started && Owns(s, id)
    case Drop(id) => s.control == Idle && Owns(s, id)
    case MarkStarted => s.control == Idle && !s.started && forall id :: Owns(s, id) ==> s.blocks[id].state != None
    case MarkStopped => s.control == Idle && s.started
    case SetFinish => s.control == Idle && !s.finish && forall id :: id in s.blocks ==> !s.blocks[id].owned
    case Take => s.worker.Update?
    case Join => s.worker.Splice?
    case SweepOne => s.worker.Sweep? && s.worker.pos < |s.working| && s.working[s.worker.pos] in s.blocks
    case SweepDone => s.worker.Sweep? && s.worker.pos >= |s.working|
    case ReadFinish => s.worker == CheckFinish
    case EndRound => s.worker == InRound
  }

  function Without(s: seq<Id>, i: nat): seq<Id>
    requires i < |s|
  {
    s[..i] + s[i + 1..]
  }

  ghost function Apply(s: System, a: Action): System
    requires Enabled(s, a)
  {
    match a
    case Alloc(id) => s.(blocks := s.blocks[id := Block(None, true, 0)], control := if s.started then Adding(id) else Idle)
    case Start(id) => // factory_add_pid_params up to the lock
      s.(blocks := s.blocks[id := s.blocks[id].(state := Working)],
         control := if s.blocks[id].state == None then Linking(id) else Idle)
    case Link => // the locked part of factory_add_pid_params
      s.(toAdd := [s.control.id] + s.toAdd,
         toAddTail := if s.toAddTail == Null then To(s.control.id) else s.toAddTail,
         control := Idle)
    case Stop(id) => // factory_remove_pid_params
      s.(blocks := s.blocks[id := s.blocks[id].(state := Remove)])
    case Drop(id) => // factory_free_pid_params
      var b := s.blocks[id];
      if b.state == None then s.(blocks := s.blocks[id := b.(owned := false, freed := b.freed + 1)])
      else s.(blocks := s.blocks[id := b.(owned := false, state := Free)])
    case MarkStarted => s.(started := true)
    case MarkStopped => s.(started := false)
    case SetFinish => s.(finish := true)
    case Take => // the locked part of factory_update_pid_params
      s.(taken := s.toAdd, takenTail := s.toAddTail, toAdd := [], toAddTail := Null, worker := Splice(s.worker.final))
    case Join => // the tail's successor becomes the old working list
      s.(working := Spliced(s.taken, s.takenTail, s.working), taken := [], takenTail := Null, worker := Sweep(s.worker.final, 0))
    case SweepOne =>
      var id := s.working[s.worker.pos];
      var b := s.blocks[id];
      if b.state != Free then s.(worker := s.worker.(pos := s.worker.pos + 1))
      else s.(working := Without(s.working, s.worker.pos), blocks := s.blocks[id := b.(freed := b.freed + 1)])
    case SweepDone => s.(worker := if s.worker.final then Destroyed else CheckFinish)
    case ReadFinish => s.(worker := if s.finish then Update(true) else InRound)
    case EndRound => s.(worker := Update(false))
  }

  /** The nodes of a list up to and including the one `tail` points at. */
  ghost function UpTo(q: seq<Id>, tail: Ptr): seq<Id> {
    if q == [] then [] else if tail == To(q[0]) then [q[0]] else [q[0]] + UpTo(q[1..], tail)
  }

  /** Setting the tail's successor to the working list: whatever followed the tail is cut off. */
  ghost function Spliced(taken: seq<Id>, tail: Ptr, working: seq<Id>): seq<Id> {
    if taken == [] then working
    else if tail.To? && tail.id in taken then UpTo(taken, tail) + working
    else taken
  }

  // ----- the invariant

  ghost function Places(s: System): seq<Id> {
    s.toAdd + s.taken + s.working
  }

  ghost predicate NoDup(q: seq<Id>) {
    forall i, j :: 0 <= i < j < |q| ==> q[i] != q[j]
  }

  ghost predicate TailOk(q: seq<Id>, tail: Ptr) {
    tail == if q == [] then Null else To(q[|q| - 1])
  }

  /** A block's life: owned and unstarted, linked exactly once, or released exactly once. */
  ghost predicate BlockOk(s: System, id: Id)
    requires id in s.blocks
  {
    var b := s.blocks[id];
    var linked := id in Places(s);
    var linking := s.control == Linking(id);
    && b.freed <= 1
    && (b.owned ==> b.freed == 0 && b.state != Free)
    && (!b.owned && b.freed == 0 ==> b.state == Free)
    && (b.freed == 1 ==> !linked && !linking)
    && (b.state == None ==> !linked && !linking)
    && (b.state != None && b.freed == 0 ==> linked != linking)
    && (linking ==> b.owned && b.state == Working)
    && (b.owned && b.state == None && s.started ==> s.control == Adding(id))
    && (s.control == Adding(id) ==> b.owned && b.state == None)
  }

  ghost predicate AllBlocksOk(s: System) {
    forall id :: id in s.blocks ==> BlockOk(s, id)
  }

  ghost predicate Inv(s: System) {
    && NoDup(Places(s))
    && (forall id :: id in Places(s) ==> id in s.blocks)
    && (s.control != Idle ==> s.control.id in s.blocks)
    && TailOk(s.toAdd, s.toAddTail) && TailOk(s.taken, s.takenTail)
    && AllBlocksOk(s)
    && (s.taken != [] ==> s.worker.Splice?)
    && (s.finish ==> s.control == Idle && forall id :: id in s.blocks ==> !s.blocks[id].owned)
    && (Final(s.worker) ==> s.finish)
    && (s.worker == Splice(true) ==> s.toAdd == [])
    && (s.worker.Sweep? && s.worker.final ==> s.toAdd == [] && s.worker.pos == 0)
    && (s.worker == Destroyed ==> Places(s) == [])
  }

  ghost predicate Final(w: Worker) {
    w == Destroyed || (w.Update? && w.final) || (w.Splice? && w.final) || (w.Sweep? && w.final)
  }

  ghost predicate Init(s: System) {
    s == System(map[], [], Null, [], Null, [], false, false, Idle, Update(false))
  }

  // ----- every step keeps the invariant

  /** With the tail at the last block nothing is cut off. */
  lemma {:induction false} UpToLast(q: seq<Id>)
    requires q != [] && NoDup(q)
    ensures UpTo(q, To(q[|q| - 1])) == q
  {
    if |q| > 1 {
      assert q[0] != q[|q| - 1];
      UpToLast(q[1..]);
    }
  }

  /** Steps that leave all lists alone and change at most one block, which stays as it should. */
  lemma OneBlock(s: System, t: System, id: Id)
    requires Inv(s) && Places(t) == Places(s)
    requires id in t.blocks && BlockOk(t, id)
    requires forall k :: k in t.blocks && k != id ==>
      k in s.blocks && t.blocks[k] == s.blocks[k]
      && (t.control == Linking(k) <==> s.control == Linking(k)) && (t.control == Adding(k) <==> s.control == Adding(k))
      && t.started == s.started
    ensures AllBlocksOk(t)
  {
    forall k | k in t.blocks
      ensures BlockOk(t, k)
    {
      if k != id {
        assert BlockOk(s, k);
      }
    }
  }

  lemma ControlStep(s: System, a: Action)
    requires Inv(s) && Enabled(s, a) && (a.Alloc? || a.Start? || a.Stop? || a.Drop?)
    ensures Inv(Apply(s, a))
  {
    var t := Apply(s, a);
    assert Places(t) == Places(s);
    if a.Alloc? {
      assert BlockOk(t, a.id);
    } else {
      assert BlockOk(s, a.id);
      assert BlockOk(t, a.id);
    }
    OneBlock(s, t, a.id);
  }

  lemma LinkStep(s: System)
    requires Inv(s) && Enabled(s, Link)
    ensures Inv(Apply(s, Link))
  {
    var t := Apply(s, Link);
    var id := s.control.id;
    assert BlockOk(s, id);
    assert Places(t) == [id] + Places(s);
    forall k | k in t.blocks
      ensures BlockOk(t, k)
    {
      assert BlockOk(s, k);
    }
  }

  lemma SameBlocks(s: System, t: System)
    requires AllBlocksOk(s) && t.blocks == s.blocks && t.control == s.control && t.started == s.started
    requires Places(t) == Places(s)
    ensures AllBlocksOk(t)
  {
    forall k | k in t.blocks
      ensures BlockOk(t, k)
    {
      assert BlockOk(s, k);
    }
  }

  /** Taking the hand-over list and joining it move blocks between places without losing one. */
  lemma TakeStep(s: System)
    requires Inv(s) && Enabled(s, Take)
    ensures Inv(Apply(s, Take))
  {
    hide NoDup;
    hide BlockOk;
    var t := Apply(s, Take);
    assert s.taken == [] && Places(t) == Places(s);
    SameBlocks(s, t);
  }

  lemma MiddleNoDup(s: System)
    requires NoDup(Places(s))
    ensures NoDup(s.taken)
  {
    assert forall i :: 0 <= i < |s.taken| ==> s.taken[i] == Places(s)[|s.toAdd| + i];
  }

  lemma JoinStep(s: System)
    requires Inv(s) && Enabled(s, Join)
    ensures Inv(Apply(s, Join))
  {
    hide NoDup;
    hide BlockOk;
    hide UpTo;
    var t := Apply(s, Join);
    MiddleNoDup(s);
    if s.taken != [] {
      UpToLast(s.taken);
      assert s.taken[|s.taken| - 1] in s.taken;
    }
    assert t.working == s.taken + s.working;
    assert Places(t) == Places(s);
    SameBlocks(s, t);
  }

  lemma SweepStep(s: System)
    requires Inv(s) && Enabled(s, SweepOne)
    ensures Inv(Apply(s, SweepOne))
  {
    hide Inv;
    if s.blocks[s.working[s.worker.pos]].state == Free {
      SweepFrees(s);
    } else {
      SweepPasses(s);
    }
  }

  /** One step of the sweep: the block at its position is released or passed. */
  lemma SweptLists(s: System)
    requires Enabled(s, SweepOne)
    ensures s.worker.Sweep? && s.worker.pos < |s.working| && s.working[s.worker.pos] in s.blocks
    ensures var k := s.worker.pos; var id := s.working[k]; var b := s.blocks[id];
      Apply(s, SweepOne)
      == if b.state == Free then s.(working := Without(s.working, k), blocks := s.blocks[id := b.(freed := b.freed + 1)])
         else s.(worker := s.worker.(pos := k + 1))
  {
  }

  lemma SweepFrees(s: System)
    requires Inv(s) && Enabled(s, SweepOne) && s.blocks[s.working[s.worker.pos]].state == Free
    ensures Inv(Apply(s, SweepOne))
  {
    hide NoDup;
    hide BlockOk;
    hide AllBlocksOk;
    hide Apply;
    SweptLists(s);
    var at := |s.toAdd| + s.worker.pos;
    assert s.taken == [] && Places(s)[at] == s.working[s.worker.pos];
    SweptPlaces(s);
    RemovedOnce(Places(s), at);
    SweptBlocks(s, at);
  }

  lemma SweepPasses(s: System)
    requires Inv(s) && Enabled(s, SweepOne) && s.blocks[s.working[s.worker.pos]].state != Free
    ensures Inv(Apply(s, SweepOne))
  {
    hide NoDup;
    hide BlockOk;
    hide AllBlocksOk;
    hide Apply;
    SweptLists(s);
    assert s.working[s.worker.pos] in Places(s);
    SweptPlaces(s);
    LiveNotFree(s, s.working[s.worker.pos]);
    SameBlocks(s, Apply(s, SweepOne));
  }

  /** A block that is not marked free still has its owner. */
  lemma LiveNotFree(s: System, id: Id)
    requires AllBlocksOk(s) && id in s.blocks && id in Places(s) && s.blocks[id].state != Free
    ensures s.blocks[id].owned
  {
    assert BlockOk(s, id);
  }

  lemma SweptPlaces(s: System)
    requires s.taken == [] && Enabled(s, SweepOne)
    ensures var t := Apply(s, SweepOne); var at := |s.toAdd| + s.worker.pos;
      && at < |Places(s)|
      && Places(t) == if s.blocks[s.working[s.worker.pos]].state == Free then Without(Places(s), at) else Places(s)
  {
    WithoutBehind(s.toAdd, s.working, s.worker.pos);
    assert s.toAdd + s.taken == s.toAdd;
  }

  lemma WithoutBehind(a: seq<Id>, w: seq<Id>, i: nat)
    requires i < |w|
    ensures Without(a + w, |a| + i) == a + Without(w, i)
  {
    assert (a + w)[..|a| + i] == a + w[..i];
    assert (a + w)[|a| + i + 1..] == w[i + 1..];
  }

  lemma SweptBlocks(s: System, at: nat)
    requires AllBlocksOk(s) && Enabled(s, SweepOne) && s.blocks[s.working[s.worker.pos]].state == Free
    requires at < |Places(s)| && Places(s)[at] == s.working[s.worker.pos]
    requires var t := Apply(s, SweepOne); forall k :: k in Places(t) <==> k in Places(s) && k != Places(s)[at]
    ensures AllBlocksOk(Apply(s, SweepOne))
  {
    hide Places;
    var t := Apply(s, SweepOne);
    assert Places(s)[at] in Places(s);
    forall k | k in t.blocks
      ensures BlockOk(t, k)
    {
      assert BlockOk(s, k);
      assert BlockOk(s, Places(s)[at]);
    }
  }

  lemma RemovedOnce(q: seq<Id>, i: nat)
    requires NoDup(q) && i < |q|
    ensures NoDup(Without(q, i))
    ensures forall k :: k in Without(q, i) <==> k in q && k != q[i]
  {
    var r := Without(q, i);
    forall k | k in q && k != q[i]
      ensures k in r
    {
      var j :| 0 <= j < |q| && q[j] == k;
      assert r[if j < i then j else j - 1] == k;
    }
    assert forall j :: 0 <= j < |r| ==> r[j] == q[if j < i then j else j + 1];
  }

  lemma QuietStep(s: System, a: Action)
    requires Inv(s) && Enabled(s, a) && (a.MarkStarted? || a.MarkStopped? || a.SetFinish? || a.SweepDone? || a.ReadFinish? || a.EndRound?)
    ensures Inv(Apply(s, a))
  {
    var t := Apply(s, a);
    assert Places(t) == Places(s);
    forall k | k in t.blocks
      ensures BlockOk(t, k)
    {
      assert BlockOk(s, k);
    }
  }

  /** Whatever either thread does next, the invariant holds afterwards. */
  lemma InvStep(s: System, a: Action)
    requires Inv(s) && Enabled(s, a)
    ensures Inv(Apply(s, a))
  {
    hide Inv;
    hide Apply;
    hide Enabled;
    match a
    case Alloc(_) => ControlStep(s, a);
    case Start(_) => ControlStep(s, a);
    case Link => LinkStep(s);
    case Stop(_) => ControlStep(s, a);
    case Drop(_) => ControlStep(s, a);
    case MarkStarted => QuietStep(s, a);
    case MarkStopped => QuietStep(s, a);
    case SetFinish => QuietStep(s, a);
    case Take => TakeStep(s);
    case Join => JoinStep(s);
    case SweepOne => SweepStep(s);
    case SweepDone => QuietStep(s, a);
    case ReadFinish => QuietStep(s, a);
    case EndRound => QuietStep(s, a);
  }

  // ----- runs

  /** The system after a sequence of actions, if each is possible when its turn comes. */
  ghost predicate Run(s: System, acts: seq<Action>, t: System)
    decreases |acts|
  {
    if acts == [] then s == t
    else Enabled(s, acts[0]) && Run(Apply(s, acts[0]), acts[1..], t)
  }

  lemma {:induction false} InvRun(s: System, acts: seq<Action>, t: System)
    requires Inv(s) && Run(s, acts, t)
    ensures Inv(t)
    decreases |acts|
  {
    if acts != [] {
      InvStep(s, acts[0]);
      InvRun(Apply(s, acts[0]), acts[1..], t);
    }
  }

  lemma ReachedInv(s: System, acts: seq<Action>, t: System)
    requires Init(s) && Run(s, acts, t)
    ensures Inv(t)
  {
    InvRun(s, acts, t);
  }

  /** In every reachable state: no block is in two places or twice in one; nothing on the hand-over list,
      taken from it, or on the working list has been released; nothing is released twice, or while its
      owner still has it. */
  lemma LifecycleSafe(s: System, acts: seq<Action>, t: System)
    requires Init(s) && Run(s, acts, t)
    ensures NoDup(Places(t))
    ensures forall id :: id in Places(t) ==> id in t.blocks && t.blocks[id].freed == 0
    ensures forall id :: id in t.blocks ==> t.blocks[id].freed <= 1 && (t.blocks[id].owned ==> t.blocks[id].freed == 0)
  {
    InvRun(s, acts, t);
    forall id | id in t.blocks
      ensures t.blocks[id].freed <= 1 && (t.blocks[id].owned ==> t.blocks[id].freed == 0)
      ensures id in Places(t) ==> t.blocks[id].freed == 0
    {
      assert BlockOk(t, id);
    }
  }

  /** When the worker destroys the engine both lists are empty, and every block there ever was has been
      released exactly once. */
  lemma ShutdownReleases(s: System, acts: seq<Action>, t: System, id: Id)
    requires Init(s) && Run(s, acts, t) && t.worker == Destroyed && id in t.blocks
    ensures t.working == [] && t.toAdd == []
    ensures t.blocks[id].freed == 1
  {
    InvRun(s, acts, t);
    assert BlockOk(t, id);
    assert Places(t) == [];
  }

  // ----- dropped blocks are released in time

  ghost predicate Released(s: System, id: Id) {
    id in s.blocks && s.blocks[id].freed == 1
  }

  /** Marked free, and not behind the worker's position in its list. */
  ghost predicate Ahead(s: System, id: Id) {
    && id in s.blocks && s.blocks[id].state == Free
    && s.worker.Sweep? && exists i :: s.worker.pos <= i < |s.working| && s.working[i] == id
  }

  /** Marked free, and taken from the hand-over list or in the working list already. */
  ghost predicate Gathered(s: System, id: Id) {
    id in s.blocks && s.blocks[id].state == Free && s.worker.Splice? && id in s.taken + s.working
  }

  ghost predicate Coming(s: System, id: Id) {
    Released(s, id) || Gathered(s, id) || Ahead(s, id)
  }

  lemma FreedGrows(s: System, a: Action, id: Id)
    requires Enabled(s, a) && id in s.blocks
    ensures id in Apply(s, a).blocks && s.blocks[id].freed <= Apply(s, a).blocks[id].freed
  {
    hide Spliced;
  }

  lemma FreedOnce(s: System, id: Id)
    requires Inv(s) && id in s.blocks
    ensures s.blocks[id].freed <= 1
  {
    assert BlockOk(s, id);
  }

  lemma ReleasedStays(s: System, a: Action, id: Id)
    requires Inv(s) && Enabled(s, a) && Released(s, id)
    ensures Released(Apply(s, a), id)
  {
    hide Inv;
    hide Apply;
    hide Enabled;
    InvStep(s, a);
    FreedGrows(s, a, id);
    FreedOnce(Apply(s, a), id);
  }

  /** Nobody else touches a block that is marked free. */
  lemma FreeStays(s: System, a: Action, id: Id)
    requires Inv(s) && Enabled(s, a) && id in s.blocks && s.blocks[id].state == Free
    ensures id in Apply(s, a).blocks && Apply(s, a).blocks[id].state == Free
  {
    hide Places;
    assert BlockOk(s, id);
  }

  lemma JoinedAll(s: System)
    requires Inv(s) && Enabled(s, Join)
    ensures Apply(s, Join).working == s.taken + s.working
  {
    hide AllBlocksOk;
    hide NoDup;
    hide UpTo;
    MiddleNoDup(s);
    if s.taken != [] {
      UpToLast(s.taken);
      assert s.taken[|s.taken| - 1] in s.taken;
    }
  }

  lemma JoinPuts(s: System, id: Id)
    requires Inv(s) && Enabled(s, Join) && Gathered(s, id)
    ensures Ahead(Apply(s, Join), id)
  {
    hide Inv;
    hide Spliced;
    JoinedAll(s);
    var t := Apply(s, Join);
    var i :| 0 <= i < |t.working| && t.working[i] == id;
  }

  lemma OthersLeaveLists(s: System, a: Action)
    requires Enabled(s, a) && a != Join && s.worker.Splice?
    ensures var t := Apply(s, a); t.taken == s.taken && t.working == s.working && t.worker == s.worker
  {
  }

  lemma GatheredStays(s: System, a: Action, id: Id)
    requires Inv(s) && Enabled(s, a) && Gathered(s, id)
    ensures Gathered(Apply(s, a), id) || Ahead(Apply(s, a), id)
  {
    hide Inv;
    hide Apply;
    hide Enabled;
    if a == Join {
      JoinPuts(s, id);
    } else {
      FreeStays(s, a, id);
      OthersLeaveLists(s, a);
    }
  }

  /** The sweep passes over no block that is marked free. */
  lemma SweepReaches(s: System, id: Id)
    requires Inv(s) && Enabled(s, SweepOne) && Ahead(s, id)
    ensures Ahead(Apply(s, SweepOne), id) || Released(Apply(s, SweepOne), id)
  {
    hide Inv;
    hide Enabled;
    var i :| s.worker.pos <= i < |s.working| && s.working[i] == id;
    var k := s.worker.pos;
    SweptLists(s);
    LinkedUnfreed(s, i);
    hide Apply;
    var t := Apply(s, SweepOne);
    if i == k {
    } else if s.blocks[s.working[k]].state == Free {
      assert t.working[i - 1] == id;
    } else {
      assert t.working[i] == id;
    }
  }

  lemma LinkedUnfreed(s: System, i: nat)
    requires Inv(s) && i < |s.working|
    ensures s.working[i] in s.blocks && s.blocks[s.working[i]].freed == 0
  {
    hide NoDup;
    assert s.working[i] in Places(s);
    assert BlockOk(s, s.working[i]);
  }

  lemma OthersLeaveSweep(s: System, a: Action)
    requires Enabled(s, a) && a != SweepOne && a != SweepDone && s.worker.Sweep?
    ensures Apply(s, a).working == s.working && Apply(s, a).worker == s.worker
  {
  }

  lemma AheadStays(s: System, a: Action, id: Id)
    requires Inv(s) && Enabled(s, a) && Ahead(s, id)
    ensures a != SweepDone && (Ahead(Apply(s, a), id) || Released(Apply(s, a), id))
  {
    hide Inv;
    hide Apply;
    NotDone(s, id);
    if a == SweepOne {
      SweepReaches(s, id);
    } else {
      FreeStays(s, a, id);
      OthersLeaveSweep(s, a);
    }
  }

  lemma NotDone(s: System, id: Id)
    requires Ahead(s, id)
    ensures !Enabled(s, SweepDone)
  {
  }

  lemma ComingStays(s: System, a: Action, id: Id)
    requires Inv(s) && Enabled(s, a) && Coming(s, id)
    ensures Coming(Apply(s, a), id) && (a == SweepDone ==> Released(Apply(s, a), id))
  {
    hide Inv;
    hide Apply;
    hide Gathered;
    hide Ahead;
    if Released(s, id) {
      ReleasedStays(s, a, id);
    } else if Gathered(s, id) {
      NoSweepYet(s, id);
      GatheredStays(s, a, id);
    } else {
      AheadStays(s, a, id);
    }
  }

  lemma NoSweepYet(s: System, id: Id)
    requires Gathered(s, id)
    ensures !Enabled(s, SweepDone)
  {
  }

  lemma {:induction false} ComingReleased(s: System, acts: seq<Action>, t: System, id: Id)
    requires Inv(s) && Run(s, acts, t) && Coming(s, id)
    ensures Coming(t, id) && (Released(s, id) || SweepDone in acts ==> Released(t, id))
    decreases |acts|
  {
    hide Inv;
    hide Coming;
    if acts != [] {
      InvStep(s, acts[0]);
      ComingStays(s, acts[0], id);
      if Released(s, id) {
        ReleasedStays(s, acts[0], id);
      }
      assert SweepDone in acts ==> acts[0] == SweepDone || SweepDone in acts[1..];
      ComingReleased(Apply(s, acts[0]), acts[1..], t, id);
    }
  }

  /** Unless it is released already, a block marked free is on a list, and taking the hand-over list gathers it. */
  lemma TakeGathers(s: System, id: Id)
    requires Inv(s) && Enabled(s, Take) && id in s.blocks && s.blocks[id].state == Free
    ensures Coming(Apply(s, Take), id)
  {
    assert BlockOk(s, id);
    if s.blocks[id].freed == 0 {
      assert id in Places(s);
      assert id in s.toAdd + s.working;
    }
  }

  lemma {:induction false} FreeReleased(s: System, acts: seq<Action>, t: System, id: Id, i: nat, j: nat)
    requires Inv(s) && Run(s, acts, t) && id in s.blocks && s.blocks[id].state == Free
    requires i < j < |acts| && acts[i] == Take && acts[j] == SweepDone
    ensures id in t.blocks && t.blocks[id].freed == 1
    decreases |acts|
  {
    hide Inv;
    hide Coming;
    InvStep(s, acts[0]);
    FreeStays(s, acts[0], id);
    var next := Apply(s, acts[0]);
    if i > 0 {
      FreeReleased(next, acts[1..], t, id, i - 1, j - 1);
    } else {
      TakeGathers(s, id);
      assert acts[1..][j - 1] == SweepDone;
      ComingReleased(next, acts[1..], t, id);
    }
  }

  /**
   A block that its owner drops is released by the end of the first sweep that begins with a later update, if
   not at once, whatever the control thread does meanwhile.
   */
  lemma DroppedReleased(s: System, before: seq<Action>, r: System, id: Id, acts: seq<Action>, t: System, i: nat, j: nat)
    requires Init(s) && Run(s, before, r) && Enabled(r, Drop(id)) && Run(Apply(r, Drop(id)), acts, t)
    requires i < j < |acts| && acts[i] == Take && acts[j] == SweepDone
    ensures id in t.blocks && t.blocks[id].freed == 1
  {
    hide Inv;
    ReachedInv(s, before, r);
    InvStep(r, Drop(id));
    var dropped := Apply(r, Drop(id));
    FreedOnce(dropped, id);
    if r.blocks[id].state == None {
      assert Released(dropped, id);
      ComingReleased(dropped, acts, t, id);
    } else {
      FreeReleased(dropped, acts, t, id, i, j);
    }
  }

  lemma ControlGoesOn(s: System)
    requires Inv(s)
    ensures s.control.Adding? ==> Enabled(s, Start(s.control.id))
    ensures s.control.Linking? ==> Enabled(s, Link)
  {
    hide NoDup;
    hide TailOk;
    if s.control.Adding? {
      assert BlockOk(s, s.control.id);
    }
  }

  /** The worker always has a next step until it has destroyed the engine. */
  ghost predicate WorkerCanGoOn(s: System) {
    || Enabled(s, Take) || Enabled(s, Join) || Enabled(s, SweepOne) || Enabled(s, SweepDone)
    || Enabled(s, ReadFinish) || Enabled(s, EndRound)
  }

  lemma WorkerGoesOn(s: System)
    requires s.worker != Destroyed && forall id :: id in s.working ==> id in s.blocks
    ensures WorkerCanGoOn(s)
  {
  }

  /** No thread gets stuck: an operation of the control thread that was begun can go on, and the worker always
      has a next step until it has destroyed the engine. */
  lemma NeverStuck(s: System, acts: seq<Action>, t: System)
    requires Init(s) && Run(s, acts, t)
    ensures t.control.Adding? ==> Enabled(t, Start(t.control.id))
    ensures t.control.Linking? ==> Enabled(t, Link)
    ensures t.worker != Destroyed ==> WorkerCanGoOn(t)
  {
    hide Enabled;
    hide WorkerCanGoOn;
    hide AllBlocksOk;
    hide NoDup;
    ReachedInv(s, acts, t);
    ControlGoesOn(t);
    forall id | id in t.working
      ensures id in t.blocks
    {
      assert id in Places(t);
    }
    if t.worker != Destroyed {
      WorkerGoesOn(t);
    }
  }
}
