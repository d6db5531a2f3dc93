/**
 The process list of a task: the target process first, its children behind it. Every round the list is
 brought up to date, in place, against the child pids that the system reports.
 */
module TaskPids {

  /** `struct task_pid`; the statistics an engine keeps for a process live and die with its node. */
  class TaskPid {
    const pid: nat
    var next: TaskPid?

    constructor (pid: nat)
      ensures this.pid == pid && next == null
    {
      this.pid, next := pid, null;
    }
  }

  /** A line of process ids, as far as it can be read as a number. */
  datatype Line = Pid(pid: nat) | Garbage

  ghost predicate AllRead(lines: seq<Line>) {
    forall i :: 0 <= i < |lines| ==> lines[i].Pid?
  }

  /** The pids up to the first line that is not a number. */
  function Stream(lines: seq<Line>): seq<nat> {
    if lines == [] || lines[0].Garbage? then [] else [lines[0].pid] + Stream(lines[1..])
  }

  function PidsOf(ns: seq<TaskPid>): seq<nat> {
    if ns == [] then [] else [ns[0].pid] + PidsOf(ns[1..])
  }

  // ----- what one pass over the children does, on values

  /** How many leading nodes have a smaller pid. */
  function Smaller(ns: seq<TaskPid>, pid: nat): (d: nat)
    ensures d <= |ns|
    ensures forall i :: 0 <= i < d ==> ns[i].pid < pid
    ensures d < |ns| ==> ns[d].pid >= pid
  {
    if ns == [] || ns[0].pid >= pid then 0 else 1 + Smaller(ns[1..], pid)
  }

  predicate Meets(ns: seq<TaskPid>, pid: nat) {
    var d := Smaller(ns, pid);
    d < |ns| && ns[d].pid == pid
  }

  /** The old nodes still ahead of the cursor after one pid. */
  function Ahead(ns: seq<TaskPid>, pid: nat): seq<TaskPid> {
    ns[Smaller(ns, pid) + (if Meets(ns, pid) then 1 else 0)..]
  }

  /** The old nodes that stay in the list. */
  function Survivors(ns: seq<TaskPid>, stream: seq<nat>): seq<TaskPid>
    decreases |stream|
  {
    if stream == [] then []
    else
      (if Meets(ns, stream[0]) then [ns[Smaller(ns, stream[0])]] else [])
      + Survivors(Ahead(ns, stream[0]), stream[1..])
  }

  /** The old nodes that are freed, in order. */
  function Dropped(ns: seq<TaskPid>, stream: seq<nat>): seq<TaskPid>
    decreases |stream|
  {
    if stream == [] then ns
    else ns[..Smaller(ns, stream[0])] + Dropped(Ahead(ns, stream[0]), stream[1..])
  }

  ghost predicate Ascending(ps: seq<nat>) {
    forall i, j :: 0 <= i < j < |ps| ==> ps[i] < ps[j]
  }

  lemma {:induction false} PidsAt(ns: seq<TaskPid>)
    ensures |PidsOf(ns)| == |ns| && forall i :: 0 <= i < |ns| ==> PidsOf(ns)[i] == ns[i].pid
  {
    if ns != [] {
      PidsAt(ns[1..]);
      assert forall i :: 1 <= i < |ns| ==> ns[i] == ns[1..][i - 1];
    }
  }

  lemma {:induction false} PidsAppend(a: seq<TaskPid>, b: seq<TaskPid>)
    ensures PidsOf(a + b) == PidsOf(a) + PidsOf(b)
  {
    if a == [] {
      assert a + b == b;
    } else {
      assert (a + b)[1..] == a[1..] + b;
      PidsAppend(a[1..], b);
    }
  }

  /** Every old node is either kept or freed, and as often as it was in the list. */
  lemma {:induction false} KeptOrDropped(ns: seq<TaskPid>, stream: seq<nat>)
    ensures multiset(Survivors(ns, stream)) + multiset(Dropped(ns, stream)) == multiset(ns)
    decreases |stream|
  {
    hide Smaller;
    if stream != [] {
      var d := Smaller(ns, stream[0]);
      var rest := Ahead(ns, stream[0]);
      var own := if Meets(ns, stream[0]) then [ns[d]] else [];
      KeptOrDropped(rest, stream[1..]);
      var kept, gone := Survivors(rest, stream[1..]), Dropped(rest, stream[1..]);
      assert Survivors(ns, stream) == own + kept && Dropped(ns, stream) == ns[..d] + gone;
      AheadSplit(ns, stream[0]);
      hide Survivors;
      hide Dropped;
      hide Ahead;
      calc {
        multiset(own + kept) + multiset(ns[..d] + gone);
        multiset(own) + multiset(kept) + (multiset(ns[..d]) + multiset(gone));
        multiset(ns[..d]) + multiset(own) + multiset(rest);
        multiset(ns[..d] + own + rest);
      }
    }
  }

  lemma AheadSplit(ns: seq<TaskPid>, pid: nat)
    ensures var d := Smaller(ns, pid);
      ns == ns[..d] + (if Meets(ns, pid) then [ns[d]] else []) + Ahead(ns, pid)
  {
    hide Smaller;
  }

  ghost predicate AscendingNodes(ns: seq<TaskPid>) {
    forall i, j :: 0 <= i < j < |ns| ==> ns[i].pid < ns[j].pid
  }

  lemma EitherWay(ns: seq<TaskPid>, stream: seq<nat>, n: TaskPid)
    ensures n in ns <==> n in Survivors(ns, stream) || n in Dropped(ns, stream)
  {
    hide Survivors;
    hide Dropped;
    KeptOrDropped(ns, stream);
    assert n in ns <==> n in multiset(ns);
  }

  lemma AheadAscends(ns: seq<TaskPid>, pid: nat)
    requires AscendingNodes(ns)
    ensures AscendingNodes(Ahead(ns, pid))
  {
    hide Smaller;
    var rest := Ahead(ns, pid);
    assert forall i :: 0 <= i < |rest| ==> rest[i] == ns[|ns| - |rest| + i];
  }

  /** Of an ascending list, the nodes ahead of the cursor are those with a larger pid. */
  lemma AheadMembers(ns: seq<TaskPid>, pid: nat, n: TaskPid)
    requires AscendingNodes(ns) && n in ns
    ensures n in Ahead(ns, pid) <==> n.pid > pid
    ensures n.pid == pid ==> Meets(ns, pid)
    ensures Meets(ns, pid) ==> (n == ns[Smaller(ns, pid)] <==> n.pid == pid)
  {
    hide Smaller;
    var d, rest := Smaller(ns, pid), Ahead(ns, pid);
    var skip := |ns| - |rest|;
    var i :| 0 <= i < |ns| && ns[i] == n;
    if n.pid > pid {
      assert ns[d].pid >= pid && d <= i;
      assert skip <= i;
      var k := i - skip;
      assert rest[k] == ns[skip + k];
    } else {
      assert forall k :: 0 <= k < |rest| ==> rest[k] == ns[skip + k] && rest[k].pid > pid;
    }
    if n.pid == pid {
      assert d <= i && !(d < i);
    }
  }

  /** The stream reports `pid`, and nothing as large before it. */
  ghost predicate InTurn(stream: seq<nat>, pid: nat) {
    exists j :: 0 <= j < |stream| && stream[j] == pid && Below(stream, j, pid)
  }

  ghost predicate Below(stream: seq<nat>, j: nat, pid: nat)
    requires j <= |stream|
  {
    forall i :: 0 <= i < j ==> stream[i] < pid
  }

  lemma InTurnStep(stream: seq<nat>, pid: nat)
    requires stream != []
    ensures InTurn(stream, pid) <==> stream[0] == pid || (stream[0] < pid && InTurn(stream[1..], pid))
  {
    var rest := stream[1..];
    if stream[0] == pid {
      assert Below(stream, 0, pid);
    }
    if InTurn(stream, pid) && stream[0] != pid {
      var j :| 0 <= j < |stream| && stream[j] == pid && Below(stream, j, pid);
      assert rest[j - 1] == pid && Below(rest, j - 1, pid);
    }
    if stream[0] < pid && InTurn(rest, pid) {
      var j :| 0 <= j < |rest| && rest[j] == pid && Below(rest, j, pid);
      var k := j + 1;
      assert stream[k] == pid;
      assert forall i :: 0 < i < k ==> stream[i] == rest[i - 1];
      assert Below(stream, k, pid);
    }
  }

  /** For any stream: a node of an ascending list survives exactly when its pid is reported in turn. */
  lemma {:induction false} SurvivorsRule(ns: seq<TaskPid>, stream: seq<nat>, n: TaskPid)
    requires AscendingNodes(ns) && n in ns
    ensures n in Survivors(ns, stream) <==> InTurn(stream, n.pid)
    decreases |stream|
  {
    hide Smaller;
    hide InTurn;
    if stream == [] {
      NoTurn(n.pid);
    } else {
      var p := stream[0];
      AheadAscends(ns, p);
      AheadMembers(ns, p, n);
      InTurnStep(stream, n.pid);
      EitherWay(Ahead(ns, p), stream[1..], n);
      if n.pid > p {
        SurvivorsRule(Ahead(ns, p), stream[1..], n);
      }
    }
  }

  lemma NoTurn(pid: nat)
    ensures !InTurn([], pid)
  {
  }

  /** Every process that is still reported keeps its node exactly when each of them is reported in turn. */
  lemma AllSurvive(ns: seq<TaskPid>, stream: seq<nat>)
    requires AscendingNodes(ns)
    ensures (forall n :: n in ns && n.pid in stream ==> n in Survivors(ns, stream))
       <==> (forall n :: n in ns && n.pid in stream ==> InTurn(stream, n.pid))
  {
    hide Survivors;
    hide InTurn;
    forall n | n in ns
      ensures n in Survivors(ns, stream) <==> InTurn(stream, n.pid)
    {
      SurvivorsRule(ns, stream, n);
    }
  }

  /** With the stream ascending too, exactly the nodes of pids that are still there survive. */
  lemma SurvivorsExact(ns: seq<TaskPid>, stream: seq<nat>, n: TaskPid)
    requires AscendingNodes(ns) && Ascending(stream)
    ensures n in Survivors(ns, stream) <==> n in ns && n.pid in stream
  {
    hide Survivors;
    EitherWay(ns, stream, n);
    if n in ns {
      SurvivorsRule(ns, stream, n);
      if n.pid in stream {
        var j :| 0 <= j < |stream| && stream[j] == n.pid;
        assert Below(stream, j, n.pid);
      }
    }
  }

  /** Out of order, a process that is still there can lose its node: 5 is freed and entered anew. */
  lemma UnsortedLosesNode(five: TaskPid, seven: TaskPid)
    requires five.pid == 5 && seven.pid == 7
    ensures Survivors([five, seven], [7, 5]) == [seven] && Dropped([five, seven], [7, 5]) == [five]
  {
    assert Smaller([five, seven], 7) == 1 by {
      assert [five, seven][1..] == [seven];
    }
    assert Ahead([five, seven], 7) == [];
    assert Survivors([], [5]) == [];
    assert [7, 5][1..] == [5];
    assert [five, seven][..1] == [five];
    assert Dropped([], [5]) == [];
  }

  // ----- the linked list itself

  ghost predicate Distinct(s: seq<TaskPid>) {
    forall i, j :: 0 <= i < j < |s| ==> s[i] != s[j]
  }

  ghost function Nodes(s: seq<TaskPid>): set<TaskPid> {
    set n | n in s
  }

  /** The value of every node's `next` field at one moment. */
  type Links = map<TaskPid, TaskPid?>

  function After(s: seq<TaskPid>, i: nat): TaskPid? {
    if i + 1 < |s| then s[i + 1] else null
  }

  /** Each node of `s` points at its successor, the last one at nothing. */
  ghost predicate Chain(nx: Links, s: seq<TaskPid>) {
    forall i :: 0 <= i < |s| ==> s[i] in nx && nx[s[i]] == After(s, i)
  }

  /** A list with a cursor: `done` is in front of it, `rest` behind it. `freed` are the nodes that were
      freed, `frees` is how many times a node was freed. */
  datatype Snapshot = Snapshot(
    head: TaskPid?, done: seq<TaskPid>, rest: seq<TaskPid>, freed: set<TaskPid>, frees: nat, next: Links)

  /** The list is sound, no node is in it twice, none was freed twice, and no freed node is linked. */
  ghost predicate Good(s: Snapshot) {
    var list := s.done + s.rest;
    && Chain(s.next, list) && s.head == (if list == [] then null else list[0])
    && Distinct(list)
    && (forall n :: n in list ==> n !in s.freed) && |s.freed| == s.frees
  }

  ghost predicate At(s: Snapshot, prev: TaskPid) {
    s.done != [] && s.done[|s.done| - 1] == prev
  }

  lemma Neighbour(s: Snapshot, prev: TaskPid)
    requires Good(s) && At(s, prev)
    ensures prev in s.next && s.next[prev] == if s.rest == [] then null else s.rest[0]
    ensures s.rest != [] ==> s.rest[0] in s.next && s.next[s.rest[0]] == (if |s.rest| == 1 then null else s.rest[1])
    ensures s.head == s.done[0]
  {
    var list := s.done + s.rest;
    var k := |s.done|;
    assert list[k - 1] == prev && list[0] == s.done[0];
    assert list[k - 1] in s.next && s.next[list[k - 1]] == After(list, k - 1);
    if s.rest != [] {
      assert list[k] == s.rest[0];
      assert list[k] in s.next && s.next[list[k]] == After(list, k);
      assert |s.rest| > 1 ==> list[k + 1] == s.rest[1];
    }
  }

  lemma DistinctInsert(s: seq<TaskPid>, k: nat, n: TaskPid, now: seq<TaskPid>)
    requires Distinct(s) && k <= |s| && n !in s && now == s[..k] + [n] + s[k..]
    ensures Distinct(now)
  {
    assert forall i :: 0 <= i < |now| && i != k ==> now[i] == s[if i < k then i else i - 1];
  }

  lemma DistinctRemove(s: seq<TaskPid>, k: nat, now: seq<TaskPid>)
    requires Distinct(s) && k < |s| && now == s[..k] + s[k + 1..]
    ensures Distinct(now) && s[k] !in now
  {
    assert forall i :: 0 <= i < |now| ==> now[i] == s[if i < k then i else i + 1];
  }

  lemma ChainInsert(nx: Links, s: seq<TaskPid>, k: nat, n: TaskPid, now: seq<TaskPid>)
    requires Chain(nx, s) && Distinct(s) && 0 < k <= |s| && n !in s && now == s[..k] + [n] + s[k..]
    ensures Chain(nx[n := if k < |s| then s[k] else null][s[k - 1] := n], now)
  {
    var ny := nx[n := if k < |s| then s[k] else null][s[k - 1] := n];
    forall i | 0 <= i < |now|
      ensures now[i] in ny && ny[now[i]] == After(now, i)
    {
      var j := if i < k then i else i - 1;
      assert i != k ==> now[i] == s[j] && s[j] in nx && nx[s[j]] == After(s, j);
      if i < k - 1 {
        assert now[i + 1] == s[i + 1] && s[i] != s[k - 1];
      } else if i > k {
        assert s[i - 1] != s[k - 1] && (i + 1 < |now| ==> now[i + 1] == s[i]);
      } else if i == k {
        assert now[k] == n && s[k - 1] != n && (k < |s| ==> now[k + 1] == s[k]);
      } else {
        assert now[k] == n;
      }
    }
  }

  lemma ChainRemove(nx: Links, s: seq<TaskPid>, k: nat, now: seq<TaskPid>)
    requires Chain(nx, s) && Distinct(s) && 0 < k < |s| && now == s[..k] + s[k + 1..]
    ensures Chain(nx[s[k - 1] := if k + 1 < |s| then s[k + 1] else null], now)
  {
    var ny := nx[s[k - 1] := if k + 1 < |s| then s[k + 1] else null];
    forall i | 0 <= i < |now|
      ensures now[i] in ny && ny[now[i]] == After(now, i)
    {
      var j := if i < k then i else i + 1;
      assert now[i] == s[j] && s[j] in nx && nx[s[j]] == After(s, j);
      if i < k - 1 {
        assert now[i + 1] == s[i + 1] && s[i] != s[k - 1];
      } else if i >= k {
        assert s[i + 1] != s[k - 1] && (i + 1 < |now| ==> now[i + 1] == s[i + 2]);
      } else {
        assert now[i] == s[k - 1] && (k + 1 < |s| ==> now[k] == s[k + 1]);
      }
    }
  }

  ghost function WithNode(s: Snapshot, prev: TaskPid, n: TaskPid): Snapshot {
    s.(done := s.done + [n], next := s.next[n := if s.rest == [] then null else s.rest[0]][prev := n])
  }

  lemma InsertGood(s: Snapshot, prev: TaskPid, n: TaskPid)
    requires Good(s) && At(s, prev) && n !in s.next && n !in s.freed
    ensures Good(WithNode(s, prev, n)) && At(WithNode(s, prev, n), n)
  {
    hide Chain;
    hide Distinct;
    var list, now := s.done + s.rest, s.done + [n] + s.rest;
    var k := |s.done|;
    assert list[..k] == s.done && list[k..] == s.rest && list[k - 1] == prev;
    Outside(s.next, list, n);
    DistinctInsert(list, k, n, now);
    ChainInsert(s.next, list, k, n, now);
  }

  lemma Outside(nx: Links, s: seq<TaskPid>, n: TaskPid)
    requires Chain(nx, s) && n !in nx
    ensures n !in s
  {
  }

  ghost function WithoutNode(s: Snapshot, prev: TaskPid): Snapshot
    requires s.rest != []
  {
    s.(rest := s.rest[1..], freed := s.freed + {s.rest[0]}, frees := s.frees + 1,
       next := s.next[prev := if |s.rest| == 1 then null else s.rest[1]])
  }

  lemma FreeGood(s: Snapshot, prev: TaskPid)
    requires Good(s) && At(s, prev) && s.rest != []
    ensures Good(WithoutNode(s, prev)) && s.rest[0] !in s.freed
  {
    hide Chain;
    hide Distinct;
    var list, now := s.done + s.rest, s.done + s.rest[1..];
    var k := |s.done|;
    assert list[..k] == s.done && list[k + 1..] == s.rest[1..] && list[k - 1] == prev && list[k] == s.rest[0];
    assert k + 1 < |list| ==> list[k + 1] == s.rest[1];
    DistinctRemove(list, k, now);
    ChainRemove(s.next, list, k, now);
    assert list[k] in list;
    Fewer(list, k, now);
  }

  lemma Fewer(s: seq<TaskPid>, k: nat, now: seq<TaskPid>)
    requires k < |s| && (now == s[..k] + s[k + 1..] || (k == 0 && now == s[1..]))
    ensures forall n :: n in now ==> n in s
  {
  }

  ghost function Kept(s: Snapshot): Snapshot
    requires s.rest != []
  {
    s.(done := s.done + [s.rest[0]], rest := s.rest[1..])
  }

  lemma KeepGood(s: Snapshot)
    requires Good(s) && s.rest != []
    ensures Good(Kept(s)) && At(Kept(s), s.rest[0])
  {
    hide Chain;
    hide Distinct;
    assert s.done + s.rest == Kept(s).done + Kept(s).rest;
  }

  /** What one pid does to the list. */
  ghost predicate Updated(s: Snapshot, t: Snapshot, pid: nat, cursor: TaskPid) {
    && t.done == s.done + [cursor] && cursor.pid == pid
    && t.rest == Ahead(s.rest, pid) && t.freed == s.freed + Nodes(s.rest[..Smaller(s.rest, pid)])
    && (if Meets(s.rest, pid) then cursor == s.rest[Smaller(s.rest, pid)] else cursor !in s.next)
    && s.next.Keys <= t.next.Keys
  }

  lemma UpdatedByInsert(s: Snapshot, t: Snapshot, n: TaskPid, pid: nat)
    requires t.done == s.done + [n] && n.pid == pid && n !in s.next && s.next.Keys <= t.next.Keys
    requires t.rest == s.rest && t.freed == s.freed
    requires s.rest == [] || pid < s.rest[0].pid
    ensures Updated(s, t, pid, n)
  {
    hide Smaller;
    hide Meets;
    hide Ahead;
    NothingSmaller(s.rest, pid);
    NoNodes(s.freed, s.rest[..0]);
  }

  lemma NothingSmaller(ns: seq<TaskPid>, pid: nat)
    requires ns == [] || pid < ns[0].pid
    ensures Smaller(ns, pid) == 0 && !Meets(ns, pid) && Ahead(ns, pid) == ns
  {
  }

  lemma NoNodes(freed: set<TaskPid>, none: seq<TaskPid>)
    requires none == []
    ensures freed + Nodes(none) == freed
  {
  }

  lemma UpdatedByKeep(s: Snapshot, pid: nat)
    requires s.rest != [] && pid == s.rest[0].pid
    ensures Updated(s, Kept(s), pid, s.rest[0])
  {
  }

  lemma UpdatedBySkip(s: Snapshot, prev: TaskPid, t: Snapshot, pid: nat, cursor: TaskPid)
    requires s.rest != [] && s.rest[0].pid < pid && prev in s.next
    requires Updated(WithoutNode(s, prev), t, pid, cursor)
    ensures Updated(s, t, pid, cursor)
  {
    var ns := s.rest;
    assert Smaller(ns, pid) == 1 + Smaller(ns[1..], pid);
    assert ns[..Smaller(ns, pid)] == [ns[0]] + ns[1..][..Smaller(ns[1..], pid)];
    assert Ahead(ns, pid) == Ahead(ns[1..], pid);
  }

  // ----- a whole pass

  ghost predicate Cleaning(s: Snapshot, t: Snapshot, gone: seq<TaskPid>) {
    t.done == s.done && s.rest == gone + t.rest && t.freed == s.freed + Nodes(gone)
  }

  lemma CleaningStart(s: Snapshot)
    ensures Cleaning(s, s, [])
  {
  }

  lemma CleaningHead(s: Snapshot, t: Snapshot, gone: seq<TaskPid>)
    requires Cleaning(s, t, gone) && t.rest != []
    ensures Cleaning(s, WithoutHead(t), gone + [t.rest[0]])
  {
  }

  lemma CleaningStep(s: Snapshot, t: Snapshot, gone: seq<TaskPid>, prev: TaskPid)
    requires Cleaning(s, t, gone) && t.rest != []
    ensures Cleaning(s, WithoutNode(t, prev), gone + [t.rest[0]])
  {
  }

  /** After the first `i` pids: the nodes behind the target carry them in order, and what still has to
      be kept and freed completes what the whole stream keeps and frees. */
  ghost predicate Passed(s: Snapshot, t: Snapshot, stream: seq<nat>, i: nat)
    requires i <= |stream|
  {
    && |s.done| == 1 && t.done != [] && t.done[0] == s.done[0] && s.next.Keys <= t.next.Keys && s.freed <= t.freed
    && PidsOf(t.done[1..]) == stream[..i]
    && t.freed + Nodes(Dropped(t.rest, stream[i..])) == s.freed + Nodes(Dropped(s.rest, stream))
    && (forall n :: n in s.next ==>
          (n in t.done[1..] || n in Survivors(t.rest, stream[i..]) <==> n in Survivors(s.rest, stream)))
  }

  /** After the whole stream: the children are the stream, of the old nodes exactly the survivors are
      among them, and exactly the others were freed. */
  ghost predicate Reconciled(s: Snapshot, t: Snapshot, stream: seq<nat>) {
    && s.done != [] && t.done != [] && t.done[0] == s.done[0]
    && PidsOf(t.done[1..]) == stream
    && t.freed == s.freed + Nodes(Dropped(s.rest, stream))
    && (forall n :: n in s.next ==> (n in t.done[1..] <==> n in Survivors(s.rest, stream)))
  }

  lemma HeadAt(s: Snapshot)
    requires Good(s) && |s.done| == 1
    ensures s.head != null && At(s, s.head)
  {
    assert (s.done + s.rest)[0] == s.done[0];
  }

  lemma PassStart(s: Snapshot, stream: seq<nat>)
    requires |s.done| == 1
    ensures Passed(s, s, stream, 0)
  {
    assert s.done[1..] == [] && stream[0..] == stream && stream[..0] == [];
  }

  lemma PassedHead(s: Snapshot, t: Snapshot, stream: seq<nat>, i: nat)
    requires i <= |stream| && Passed(s, t, stream, i)
    ensures t.done != [] && t.done[0] == s.done[0]
  {
  }

  lemma PassStep(s: Snapshot, t: Snapshot, u: Snapshot, stream: seq<nat>, i: nat, cursor: TaskPid)
    requires i < |stream| && Passed(s, t, stream, i) && Updated(t, u, stream[i], cursor)
    ensures Passed(s, u, stream, i + 1)
  {
    hide Smaller;
    hide Survivors;
    hide Dropped;
    hide Ahead;
    var rem := stream[i..];
    assert rem[0] == stream[i] && rem[1..] == stream[i + 1..];
    StepParts(t.rest, rem);
    var kids := t.done[1..];
    assert u.done[1..] == kids + [cursor];
    PidsAppend(kids, [cursor]);
    assert PidsOf([cursor]) == [stream[i]];
    assert stream[..i + 1] == stream[..i] + [stream[i]];
  }

  /** The first pid of a stream: what it keeps and frees, and what the others keep and free. */
  lemma StepParts(ns: seq<TaskPid>, stream: seq<nat>)
    requires stream != []
    ensures Nodes(Dropped(ns, stream)) == Nodes(ns[..Smaller(ns, stream[0])]) + Nodes(Dropped(Ahead(ns, stream[0]), stream[1..]))
    ensures forall n ::
      (n in Survivors(ns, stream)
       <==> (Meets(ns, stream[0]) && n == ns[Smaller(ns, stream[0])]) || n in Survivors(Ahead(ns, stream[0]), stream[1..]))
  {
    hide Smaller;
  }

  lemma PassEnd(s: Snapshot, t: Snapshot, u: Snapshot, stream: seq<nat>)
    requires Passed(s, t, stream, |stream|) && u.done == t.done && u.freed == t.freed + Nodes(t.rest)
    ensures Reconciled(s, u, stream)
  {
    assert stream[|stream|..] == [] && stream[..|stream|] == stream;
  }

  /** No node of the list is lost: it is still linked, or it was freed. */
  ghost predicate NoneLost(s: Snapshot, t: Snapshot) {
    && s.freed <= t.freed
    && forall n :: n in s.done + s.rest ==> n in t.done + t.rest || n in t.freed
  }

  lemma PassedNoneLost(s: Snapshot, t: Snapshot, stream: seq<nat>, i: nat)
    requires Good(s) && i <= |stream| && Passed(s, t, stream, i)
    ensures NoneLost(s, t)
  {
    hide Survivors;
    hide Dropped;
    hide Good;
    forall n | n in s.done + s.rest
      ensures n in t.done + t.rest || n in t.freed
    {
      if n in s.rest {
        Known(s, n);
        EitherWay(s.rest, stream, n);
        EitherWay(t.rest, stream[i..], n);
        assert n in t.done[1..] ==> n in t.done;
        assert n in Dropped(s.rest, stream) ==> n in s.freed + Nodes(Dropped(s.rest, stream));
      } else {
        assert n == s.done[0] && t.done[0] in t.done;
      }
    }
  }

  lemma Known(s: Snapshot, n: TaskPid)
    requires Good(s) && n in s.done + s.rest
    ensures n in s.next
  {
  }

  /**
   With the old children and the stream both strictly ascending: the children become the stream, every
   process that is still there keeps its very node, the node of every other one is freed, once, and the
   children are strictly ascending again for the next round.
   */
  lemma ReconcileExact(s: Snapshot, t: Snapshot, stream: seq<nat>)
    requires Good(s) && Good(t) && |s.done| == 1 && t.rest == [] && Reconciled(s, t, stream)
    requires AscendingNodes(s.rest) && Ascending(stream)
    ensures PidsOf(t.done[1..]) == stream && AscendingNodes(t.done[1..])
    ensures forall n :: n in s.rest ==>
      if n.pid in stream then n in t.done[1..] && n !in t.freed else n !in t.done[1..] && n in t.freed
    ensures |t.freed| == t.frees && t.done[0] == s.done[0]
  {
    hide Survivors;
    hide Dropped;
    hide Chain;
    var kids := t.done[1..];
    PidsAt(kids);
    assert forall n :: n in kids ==> n in t.done + t.rest;
    forall n | n in s.rest
      ensures if n.pid in stream then n in kids && n !in t.freed else n !in kids && n in t.freed
    {
      Known(s, n);
      SurvivorsExact(s.rest, stream, n);
      EitherWay(s.rest, stream, n);
    }
  }

  lemma {:induction false} StreamAt(lines: seq<Line>, i: nat)
    requires i < |lines| && i <= |Stream(lines)|
    ensures lines[i].Garbage? ==> !AllRead(lines)
    ensures lines[i].Pid? ==> i < |Stream(lines)| && Stream(lines)[i] == lines[i].pid
  {
    if i > 0 {
      StreamAt(lines[1..], i - 1);
    }
  }

  lemma {:induction false} StreamAll(lines: seq<Line>)
    requires |Stream(lines)| >= |lines|
    ensures AllRead(lines) && |Stream(lines)| == |lines|
  {
    if lines != [] {
      StreamAll(lines[1..]);
      assert forall i :: 0 < i < |lines| ==> lines[i] == lines[1..][i - 1];
    }
  }

  /** The cursor behind the first node. */
  ghost function Focused(s: Snapshot): Snapshot {
    var list := s.done + s.rest;
    if list == [] then s else s.(done := list[..1], rest := list[1..])
  }

  /** The list starts at `pid`: as it was when it already did, otherwise emptied first. */
  ghost predicate Retargeted(s: Snapshot, t: Snapshot, pid: nat) {
    var list := s.done + s.rest;
    if list != [] && list[0].pid == pid then t == Focused(s)
    else t.rest == [] && t.freed == s.freed + Nodes(list)
  }

  lemma ReconciledPids(s: Snapshot, t: Snapshot, stream: seq<nat>)
    requires Reconciled(s, t, stream)
    ensures t.done != [] && t.done[0] == s.done[0] && PidsOf(t.done[1..]) == stream
  {
  }

  lemma LostNever(s: Snapshot, t: Snapshot, u: Snapshot, v: Snapshot, pid: nat)
    requires Retargeted(s, t, pid) && (u == t || NoneLost(t, u))
    requires v == u || v.freed == u.freed + Nodes(u.done + u.rest)
    ensures NoneLost(s, v)
  {
    var list := s.done + s.rest;
    if list != [] && list[0].pid == pid {
      assert t.done + t.rest == list;
    }
    forall n | n in list
      ensures n in t.done + t.rest || n in t.freed
    {
    }
  }

  // ----- the list from its head

  lemma Resplit(s: Snapshot, done: seq<TaskPid>, rest: seq<TaskPid>)
    requires Good(s) && s.done + s.rest == done + rest
    ensures Good(s.(done := done, rest := rest))
  {
  }

  ghost function WithoutHead(s: Snapshot): Snapshot
    requires s.rest != []
  {
    s.(head := After(s.rest, 0), rest := s.rest[1..], freed := s.freed + {s.rest[0]}, frees := s.frees + 1)
  }

  lemma FreeHeadGood(s: Snapshot)
    requires Good(s) && s.done == [] && s.rest != []
    ensures Good(WithoutHead(s)) && s.head == s.rest[0] && s.head in s.next && s.next[s.head] == After(s.rest, 0)
    ensures s.rest[0] !in s.freed
  {
    hide Chain;
    hide Distinct;
    hide After;
    var t, tail := WithoutHead(s), s.rest[1..];
    assert s.done + s.rest == s.rest && t.done + t.rest == tail;
    ChainTail(s.next, s.rest);
    HeadOfTail(s.rest);
    Fewer(s.rest, 0, tail);
    assert tail == s.rest[..0] + s.rest[1..];
    DistinctRemove(s.rest, 0, tail);
    assert s.rest[0] in s.rest;
  }

  lemma HeadOfTail(s: seq<TaskPid>)
    requires s != []
    ensures After(s, 0) == if s[1..] == [] then null else s[1..][0]
  {
  }

  lemma ChainTail(nx: Links, s: seq<TaskPid>)
    requires Chain(nx, s) && s != []
    ensures Chain(nx, s[1..]) && s[0] in nx && nx[s[0]] == After(s, 0)
  {
    var t := s[1..];
    forall i | 0 <= i < |t|
      ensures t[i] in nx && nx[t[i]] == After(t, i)
    {
      assert t[i] == s[i + 1] && After(s, i + 1) == After(t, i);
    }
  }

  ghost function Alone(s: Snapshot, n: TaskPid): Snapshot {
    s.(head := n, done := [n], rest := [], next := s.next[n := null])
  }

  lemma AloneGood(s: Snapshot, n: TaskPid)
    requires Good(s) && n !in s.freed
    ensures Good(Alone(s, n))
  {
    assert [n] + [] == [n];
  }

  ghost function NextOf(nodes: set<TaskPid>): (nx: Links)
    reads nodes
    ensures nx.Keys == nodes
  {
    map n | n in nodes :: n.next
  }

  class Task {
    var pids: TaskPid?
    ghost var done: seq<TaskPid>
    ghost var rest: seq<TaskPid>
    ghost var freed: set<TaskPid>
    ghost var frees: nat
    ghost var nodes: set<TaskPid>

    ghost function Now(): (s: Snapshot)
      reads this, nodes
    {
      Snapshot(pids, done, rest, freed, frees, NextOf(nodes))
    }

    ghost predicate Valid()
      reads this, nodes
    {
      Good(Now()) && freed <= nodes
    }

    constructor ()
      ensures Valid() && done == [] && rest == [] && freed == {} && nodes == {}
    {
      pids, done, rest, freed, frees, nodes := null, [], [], {}, 0, {};
    }

    /** `insert_task_pids`: a new node at the cursor, which moves behind it. */
    method Insert(pid: nat, prev: TaskPid) returns (n: TaskPid)
      requires Valid() && At(Now(), prev)
      modifies this`done, this`nodes, prev`next
      ensures Valid() && At(Now(), n) && fresh(n) && n.pid == pid
      ensures Now() == WithNode(old(Now()), prev, n) && nodes == old(nodes) + {n}
    {
      hide Good;
      ghost var s := Now();
      Neighbour(s, prev);
      n := new TaskPid(pid);
      InsertGood(s, prev, n);
      n.next := prev.next;
      prev.next := n;
      nodes := nodes + {n};
      done := done + [n];
      assert NextOf(nodes) == WithNode(s, prev, n).next;
    }

    /** Unlink and free the node at the cursor. */
    method Free(prev: TaskPid)
      requires Valid() && At(Now(), prev) && rest != []
      modifies this`rest, this`freed, this`frees, prev`next
      ensures Valid() && Now() == WithoutNode(old(Now()), prev)
    {
      hide Good;
      ghost var s := Now();
      Neighbour(s, prev);
      FreeGood(s, prev);
      prev.next := prev.next.next;
      freed, frees, rest := freed + {rest[0]}, frees + 1, rest[1..];
      assert NextOf(nodes) == WithoutNode(s, prev).next;
    }

    /** `update_task_pids`: bring the list up to `pid`, from the cursor on. */
    method Update(pid: nat, prev: TaskPid) returns (cursor: TaskPid)
      requires Valid() && At(Now(), prev)
      modifies this`done, this`rest, this`freed, this`frees, this`nodes, prev`next
      ensures Valid() && At(Now(), cursor) && Updated(old(Now()), Now(), pid, cursor)
      ensures old(nodes) <= nodes && fresh(nodes - old(nodes))
      decreases |rest|
    {
      hide Good;
      hide Updated;
      hide NextOf;
      ghost var s := Now();
      Neighbour(s, prev);
      LinkAt(prev);
      if prev.next == null {
        cursor := Insert(pid, prev);
        UpdatedByInsert(s, Now(), cursor, pid);
        return;
      }
      if pid == prev.next.pid {
        cursor := prev.next;
        KeepGood(s);
        UpdatedByKeep(s, pid);
        done, rest := done + [rest[0]], rest[1..];
        return;
      }
      if pid > prev.next.pid {
        Free(prev);
        cursor := Update(pid, prev);
        UpdatedBySkip(s, prev, Now(), pid, cursor);
        return;
      }
      cursor := Insert(pid, prev);
      UpdatedByInsert(s, Now(), cursor, pid);
    }

    /** `clean_nouse_pid`: free everything from the cursor on. */
    method Clean(prev: TaskPid)
      requires Valid() && At(Now(), prev)
      modifies this`rest, this`freed, this`frees, prev`next
      ensures Valid() && done == old(done) && rest == [] && freed == old(freed) + Nodes(old(rest))
    {
      hide Good;
      hide NextOf;
      hide Nodes;
      ghost var s := Now();
      ghost var gone := [];
      CleaningStart(s);
      CursorLink(prev);
      while prev.next != null
        invariant Valid() && At(Now(), prev) && Cleaning(s, Now(), gone)
        invariant prev.next == null <==> rest == []
        decreases |rest|
      {
        CleaningStep(s, Now(), gone, prev);
        gone := gone + [rest[0]];
        Free(prev);
        CursorLink(prev);
      }
      assert gone + [] == gone;
    }

    lemma CursorLink(prev: TaskPid)
      requires Valid() && At(Now(), prev)
      ensures prev in nodes && prev.next == if rest == [] then null else rest[0]
    {
      Neighbour(Now(), prev);
    }

    /** `read_fill_child_pid_file`: reconcile the children with the reported lines. */
    method ReadChildren(lines: seq<Line>) returns (ret: int)
      requires Valid() && |done| == 1
      modifies this`done, this`rest, this`freed, this`frees, this`nodes, nodes
      ensures Valid() && |done| >= 1 && done[0] == old(done)[0] && (ret == 0 || ret == -1)
      ensures old(nodes) <= nodes && fresh(nodes - old(nodes))
      ensures ret == 0 <==> AllRead(lines)
      ensures ret == 0 ==> rest == [] && Reconciled(old(Now()), Now(), Stream(lines))
      ensures NoneLost(old(Now()), Now())
    {
      hide Good;
      hide NextOf;
      hide Updated;
      hide Passed;
      hide AllRead;
      hide Stream;
      ghost var s := Now();
      var prev := pids;
      HeadAt(s);
      ghost var stream := Stream(lines);
      PassStart(s, stream);
      for i := 0 to |lines|
        invariant Valid() && prev != null && At(Now(), prev) && i <= |stream| && Passed(s, Now(), stream, i)
        invariant old(nodes) <= nodes && fresh(nodes - old(nodes))
      {
        StreamAt(lines, i);
        if lines[i].Garbage? {
          PassedHead(s, Now(), stream, i);
          PassedNoneLost(s, Now(), stream, i);
          return -1;
        }
        ghost var t := Now();
        CursorLink(prev);
        prev := Update(lines[i].pid, prev);
        PassStep(s, t, Now(), stream, i, prev);
      }
      StreamAll(lines);
      ghost var t := Now();
      PassedHead(s, t, stream, |lines|);
      CursorLink(prev);
      PassedNoneLost(s, t, stream, |lines|);
      Clean(prev);
      PassEnd(s, t, Now(), stream);
      ret := 0;
    }

    /** `etmemd_free_task_pids`, and `clean_nouse_pid` from the head: free the whole list. */
    method FreeAll()
      requires Valid()
      modifies this`pids, this`done, this`rest, this`freed, this`frees
      ensures Valid() && pids == null && done == [] && rest == []
      ensures freed == old(freed) + Nodes(old(done) + old(rest))
    {
      hide Good;
      hide NextOf;
      hide Nodes;
      ghost var all := done + rest;
      Resplit(Now(), [], all);
      done, rest := [], all;
      ghost var s := Now();
      ghost var gone := [];
      CleaningStart(s);
      HeadLink();
      while pids != null
        invariant Valid() && done == [] && Cleaning(s, Now(), gone) && (pids == null <==> rest == [])
        decreases |rest|
      {
        CleaningHead(s, Now(), gone);
        gone := gone + [rest[0]];
        FreeHead();
        HeadLink();
      }
      assert gone + [] == gone;
    }

    method FreeHead()
      requires Valid() && done == [] && rest != []
      modifies this`pids, this`rest, this`freed, this`frees
      ensures Valid() && Now() == WithoutHead(old(Now()))
    {
      hide Good;
      hide NextOf;
      FreeHeadGood(Now());
      LinkAt(pids);
      pids := pids.next;
      freed, frees, rest := freed + {rest[0]}, frees + 1, rest[1..];
    }

    lemma HeadLink()
      requires Valid() && done == []
      ensures pids == null <==> rest == []
    {
      assert done + rest == rest;
    }

    /** `fill_task_pid`: the target process at the head of the list; another head clears the list. */
    method FillTarget(target: Line) returns (ret: int)
      requires Valid()
      modifies this
      ensures Valid() && (ret == 0 <==> target.Pid?) && (ret == 0 || ret == -1)
      ensures old(nodes) <= nodes && fresh(nodes - old(nodes))
      ensures target.Garbage? ==> Now() == old(Now())
      ensures target.Pid? ==> |done| == 1 && done[0].pid == target.pid && Retargeted(old(Now()), Now(), target.pid)
    {
      hide Good;
      hide NextOf;
      if target.Garbage? {
        return -1;
      }
      ret := 0;
      ghost var s := Now();
      ghost var list := done + rest;
      HeadIs(s);
      if pids != null && pids.pid == target.pid {
        Resplit(s, list[..1], list[1..]);
        done, rest := list[..1], list[1..];
        return;
      }
      FreeAll();
      NewHead(target.pid);
    }

    method NewHead(pid: nat)
      requires Valid() && done == [] && rest == []
      modifies this`pids, this`done, this`nodes
      ensures Valid() && |done| == 1 && done[0].pid == pid && fresh(done[0]) && nodes == old(nodes) + {done[0]}
    {
      hide Good;
      hide NextOf;
      ghost var t := Now();
      var n := new TaskPid(pid);
      AloneGood(t, n);
      pids := n;
      nodes := nodes + {n};
      done := [n];
      SameLinks(t.next, n);
    }

    lemma SameLinks(nx: Links, n: TaskPid)
      requires n in nodes && n.next == null && nx == NextOf(nodes - {n})
      ensures NextOf(nodes) == nx[n := null]
    {
    }

    lemma HeadIs(s: Snapshot)
      requires Good(s)
      ensures s.head == if s.done + s.rest == [] then null else (s.done + s.rest)[0]
    {
    }

    /**
     `etmemd_get_task_pids`. `found` says whether the pid of the target could be looked up, `target` is that
     pid as text, `alive` whether the process exists, `piped` whether the child pids could be asked for and
     `lines` the answer.
     */
    method GetPids(found: bool, target: Line, alive: bool, recursive: bool, piped: bool, lines: seq<Line>) returns (ret: int)
      requires Valid()
      modifies this, nodes
      ensures Valid() && (ret == 0 || ret == -1) && NoneLost(old(Now()), Now())
      ensures old(nodes) <= nodes && fresh(nodes - old(nodes))
      ensures ret == 0 <==> found && alive && target.Pid? && (recursive ==> piped && AllRead(lines))
      ensures ret == 0 ==> done != [] && done[0].pid == target.pid
      ensures ret == 0 && !recursive ==> Retargeted(old(Now()), Now(), target.pid)
      ensures ret == 0 && recursive ==> rest == [] && PidsOf(done[1..]) == Stream(lines)
      ensures ret == 0 && recursive && old(done + rest) != [] && old((done + rest)[0]).pid == target.pid ==>
        Reconciled(Focused(old(Now())), Now(), Stream(lines))
      ensures !found || !alive || target.Garbage? ==> Now() == old(Now())
      ensures ret != 0 && found && alive && target.Pid? ==> done == [] && rest == []
    {
      hide Good;
      hide NextOf;
      hide Reconciled;
      ghost var s := Now();
      if !found {
        return -1;
      }
      if !alive {
        return -1;
      }
      ret := FillTarget(target);
      if ret != 0 {
        return;
      }
      ghost var t := Now();
      if !recursive {
        LostNever(s, t, t, t, target.pid);
        return;
      }
      if !piped {
        ret := -1;
      } else {
        ret := ReadChildren(lines);
      }
      ghost var u := Now();
      if ret != 0 {
        FreeAll();
      } else {
        ReconciledPids(t, u, Stream(lines));
      }
      LostNever(s, t, u, Now(), target.pid);
    }

    lemma LinkAt(n: TaskPid)
      requires n in NextOf(nodes)
      ensures n in nodes && n.next == NextOf(nodes)[n]
    {
    }
  }
}
