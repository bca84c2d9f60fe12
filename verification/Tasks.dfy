/** Tasks, their states, and the per-priority ready queues of one hart.
    Source: kernel/src/task/tcb.rs, kernel/src/task/hart_local/ready.rs. */
module Tasks {
  import opened ByteData
  import opened Wrappers

  const NORMAL: nat := 1
  const REAL_TIME: nat := 2
  const PRIORITIES: nat := 256
  /** Messages buffered for a frozen task. */
  const HOTSWAP_MSG_QUEUE_DEPTH: nat := 64

  /** The single address space. */
  type Memory = nat -> Byte

  /** A message waiting in a frozen task's queue. `mid` names the accepted send. */
  datatype PendingMsg = PendingMsg(sender: nat, data: seq<Byte>, mid: nat)

  datatype TaskState =
    | Ready
    | Running
    | Sleeping(until: nat)
    | Sending(target: nat, msgPtr: nat, msgLen: nat, mid: nat)
    | Recv(mask: nat, bufPtr: nat, bufLen: nat, deadline: Option<nat>)
    | FutexWait(addr: nat)
    | Waiting(pid: nat)
    | WaitEvent(netRx: bool, until_: Option<nat>)
    /** `held` is history, read by no operation: the wait the freeze came upon. */
    | Frozen(swapId: nat, held: Option<nat>)

  /** The task whose waiter list a task in this state is on: freezing a task takes it
      off no list. */
  function Awaits(st: TaskState): Option<nat> {
    match st
    case Waiting(pid) => Some(pid)
    case Frozen(_, held) => held
    case _ => None
  }

  datatype Task = Task(
    state: TaskState,
    priority: nat,
    currentCaller: Option<nat>,
    replyValue: Option<nat>,
    /** The syscall return register. */
    ret: nat,
    waiters: seq<nat>,
    pendingDeaths: seq<(nat, nat)>,
    pendingExitReason: Option<nat>,
    heartbeat: Option<nat>,
    runTicks: nat,
    deadlineMisses: nat,
    pendingMsgs: seq<PendingMsg>)

  function NewTask(): Task {
    Task(Ready, NORMAL, None, None, 0, [], [], None, None, 0, 0, [])
  }

  type Table = map<nat, Task>

  /** Priorities are bytes. */
  ghost predicate PrioritiesOk(tasks: Table) {
    forall id :: id in tasks ==> tasks[id].priority < PRIORITIES
  }

  ghost function ReadySet(tasks: Table): set<nat> {
    set id | id in tasks && tasks[id].state == Ready
  }

  // ---- ready queues ----------------------------------------------------

  /** One FIFO per priority. */
  type Queues = seq<seq<nat>>

  /** Everything queued, with multiplicity. */
  ghost function Queued(q: Queues): multiset<nat> {
    if q == [] then multiset{} else multiset(q[0]) + Queued(q[1..])
  }

  function Push(q: Queues, p: nat, id: nat): Queues
    requires p < |q|
  {
    q[p := q[p] + [id]]
  }

  /** The priority `push_ready` uses: the task's own, Normal when it is unknown. */
  function PriorityOf(tasks: Table, id: nat): nat {
    if id in tasks then tasks[id].priority else NORMAL
  }

  function PushReady(q: Queues, tasks: Table, id: nat): Queues {
    var p := PriorityOf(tasks, id);
    if p < |q| then Push(q, p, id) else q
  }

  function PushAll(q: Queues, tasks: Table, ids: seq<nat>): Queues
    decreases |ids|
  {
    if ids == [] then q
    else PushReady(PushAll(q, tasks, ids[..|ids| - 1]), tasks, ids[|ids| - 1])
  }

  /** A queue without any occurrence of `id`. */
  function Retain(s: seq<nat>, id: nat): seq<nat> {
    if s == [] then []
    else if s[|s| - 1] == id then Retain(s[..|s| - 1], id)
    else Retain(s[..|s| - 1], id) + [s[|s| - 1]]
  }

  function RemoveAll(q: Queues, id: nat): (r: Queues)
    ensures |r| == |q|
  {
    if q == [] then [] else [Retain(q[0], id)] + RemoveAll(q[1..], id)
  }

  /** The highest-priority non-empty queue below level `p`. */
  function TopBelow(q: Queues, p: nat): Option<nat>
    requires p <= |q|
  {
    if p == 0 then None
    else if q[p - 1] != [] then Some(p - 1)
    else TopBelow(q, p - 1)
  }

  function Pop(q: Queues): (Option<nat>, Queues) {
    var top := TopBelow(q, |q|);
    match top
    case None => (None, q)
    case Some(p) => if p < |q| && q[p] != [] then (Some(q[p][0]), q[p := q[p][1..]]) else (None, q)
  }

  lemma {:induction false} QueuedPush(q: Queues, p: nat, id: nat)
    requires p < |q|
    ensures Queued(Push(q, p, id)) == Queued(q) + multiset{id}
    decreases p
  {
    var r := Push(q, p, id);
    if p == 0 {
      assert r[1..] == q[1..];
      assert multiset(q[0] + [id]) == multiset(q[0]) + multiset{id};
    } else {
      assert r[1..] == Push(q[1..], p - 1, id);
      QueuedPush(q[1..], p - 1, id);
    }
  }

  /** Taking the front of queue `p`. */
  lemma {:induction false} QueuedDrop(q: Queues, p: nat)
    requires p < |q| && q[p] != []
    ensures Queued(q) == Queued(q[p := q[p][1..]]) + multiset{q[p][0]}
    decreases p
  {
    var r := q[p := q[p][1..]];
    if p == 0 {
      assert r[1..] == q[1..];
      assert q[0] == [q[0][0]] + q[0][1..];
    } else {
      assert r[1..] == q[1..][p - 1 := q[1..][p - 1][1..]];
      QueuedDrop(q[1..], p - 1);
    }
  }

  lemma SnocMultiset(s: seq<nat>)
    requires s != []
    ensures multiset(s) == multiset(s[..|s| - 1]) + multiset{s[|s| - 1]}
  {
    assert s == s[..|s| - 1] + [s[|s| - 1]];
  }

  lemma {:induction false} QueuedPushAll(q: Queues, tasks: Table, ids: seq<nat>)
    requires |q| == PRIORITIES && PrioritiesOk(tasks)
    ensures |PushAll(q, tasks, ids)| == PRIORITIES
    ensures Queued(PushAll(q, tasks, ids)) == Queued(q) + multiset(ids)
    decreases |ids|
  {
    if ids != [] {
      var k := |ids| - 1;
      QueuedPushAll(q, tasks, ids[..k]);
      QueuedPush(PushAll(q, tasks, ids[..k]), PriorityOf(tasks, ids[k]), ids[k]);
      SnocMultiset(ids);
      assert Queued(q) + multiset(ids[..k]) + multiset{ids[k]} == Queued(q) + (multiset(ids[..k]) + multiset{ids[k]});
    }
  }

  lemma {:induction false} RetainCount(s: seq<nat>, id: nat)
    ensures multiset(Retain(s, id)) == multiset(s)[id := 0]
  {
    if s != [] {
      var k := |s| - 1;
      RetainCount(s[..k], id);
      assert s == s[..k] + [s[k]];
    }
  }

  lemma {:induction false} QueuedRemoveAll(q: Queues, id: nat)
    ensures Queued(RemoveAll(q, id)) == Queued(q)[id := 0]
  {
    if q != [] {
      RetainCount(q[0], id);
      QueuedRemoveAll(q[1..], id);
      assert RemoveAll(q, id)[1..] == RemoveAll(q[1..], id);
    }
  }

  lemma {:induction false} TopBelowSpec(q: Queues, p: nat)
    requires p <= |q|
    ensures TopBelow(q, p).None? ==> forall k :: 0 <= k < p ==> q[k] == []
    ensures TopBelow(q, p).Some? ==>
              var t := TopBelow(q, p).value;
              t < p && q[t] != [] && forall k :: t < k < p ==> q[k] == []
  {
    if p > 0 && q[p - 1] == [] { TopBelowSpec(q, p - 1); }
  }

  lemma {:induction false} EmptyQueues(q: Queues)
    requires forall k :: 0 <= k < |q| ==> q[k] == []
    ensures Queued(q) == multiset{}
  {
    if q != [] { EmptyQueues(q[1..]); }
  }

  /** Popping takes the front of the highest non-empty queue, and nothing else. */
  lemma PopSpec(q: Queues)
    ensures |Pop(q).1| == |q|
    ensures Pop(q).0.None? ==> Pop(q).1 == q && Queued(q) == multiset{}
    ensures Pop(q).0.Some? ==> Queued(q) == Queued(Pop(q).1) + multiset{Pop(q).0.value}
    ensures Pop(q).0.Some? ==>
              exists p: nat :: p < |q| && q[p] != [] && Pop(q).0.value == q[p][0] && forall k :: p < k < |q| ==> q[k] == []
  {
    TopBelowSpec(q, |q|);
    var top := TopBelow(q, |q|);
    match top
    case None => EmptyQueues(q);
    case Some(p) =>
      QueuedDrop(q, p);
  }

  // ---- scans over the task table in id order ---------------------------

  /** The ids below `n` whose task satisfies `want`, in ascending order. */
  function Select(tasks: Table, n: nat, want: (nat, Task) -> bool): seq<nat> {
    if n == 0 then []
    else if n - 1 in tasks && want(n - 1, tasks[n - 1]) then Select(tasks, n - 1, want) + [n - 1]
    else Select(tasks, n - 1, want)
  }

  ghost predicate Ascending(s: seq<nat>) {
    forall i, j :: 0 <= i < j < |s| ==> s[i] < s[j]
  }

  lemma {:induction false} SelectSpec(tasks: Table, n: nat, want: (nat, Task) -> bool)
    ensures forall x: nat :: x in Select(tasks, n, want) <==> x < n && x in tasks && want(x, tasks[x])
    ensures Ascending(Select(tasks, n, want))
  {
    if n > 0 {
      SelectSpec(tasks, n - 1, want);
      var s := Select(tasks, n - 1, want);
      assert forall i :: 0 <= i < |s| ==> s[i] in s;
    }
  }

  lemma {:induction false} DistinctMultiset(s: seq<nat>)
    requires Distinct(s)
    ensures multiset(s) == multiset(Members(s))
  {
    if s != [] {
      var k := |s| - 1;
      DistinctMultiset(s[..k]);
      assert s == s[..k] + [s[k]];
      assert s[k] !in s[..k];
      assert Members(s) == Members(s[..k]) + {s[k]};
    }
  }

  // ---- the queue invariant ---------------------------------------------

  /** Every Ready task is queued exactly once, and nothing else is queued. */
  ghost predicate QueueInv(tasks: Table, q: Queues) {
    && |q| == PRIORITIES
    && PrioritiesOk(tasks)
    && Queued(q) == multiset(ReadySet(tasks))
  }

  /** Read off the multiset form: membership and multiplicity. */
  lemma QueueInvMeans(tasks: Table, q: Queues, id: nat)
    requires QueueInv(tasks, q)
    ensures Queued(q)[id] == if id in tasks && tasks[id].state == Ready then 1 else 0
  {}

  /** Making a batch of non-Ready tasks Ready and queueing each once. */
  lemma WakeBatch(tasks: Table, tasks': Table, q: Queues, ids: seq<nat>)
    requires QueueInv(tasks, q) && PrioritiesOk(tasks')
    requires Distinct(ids) && Members(ids) !! ReadySet(tasks)
    requires ReadySet(tasks') == ReadySet(tasks) + Members(ids)
    ensures QueueInv(tasks', PushAll(q, tasks', ids))
  {
    QueuedPushAll(q, tasks', ids);
    DistinctMultiset(ids);
  }

  lemma WakeOne(tasks: Table, tasks': Table, q: Queues, id: nat)
    requires QueueInv(tasks, q) && PrioritiesOk(tasks')
    requires id !in ReadySet(tasks) && ReadySet(tasks') == ReadySet(tasks) + {id}
    ensures QueueInv(tasks', PushReady(q, tasks', id))
  {
    QueuedPush(q, PriorityOf(tasks', id), id);
  }

  /** Removing a task from the table and from every queue. */
  lemma RemoveTask(tasks: Table, q: Queues, id: nat)
    requires QueueInv(tasks, q)
    ensures QueueInv(tasks - {id}, RemoveAll(q, id))
  {
    QueuedRemoveAll(q, id);
    assert ReadySet(tasks - {id}) == ReadySet(tasks) - {id};
  }

  /** Taking a task off every queue as it stops being Ready. */
  lemma Unqueue(tasks: Table, tasks': Table, q: Queues, id: nat)
    requires QueueInv(tasks, q) && PrioritiesOk(tasks') && ReadySet(tasks') == ReadySet(tasks) - {id}
    ensures QueueInv(tasks', RemoveAll(q, id))
  {
    QueuedRemoveAll(q, id);
  }

  lemma Cancel(a: multiset<nat>, b: multiset<nat>, id: nat)
    requires a + multiset{id} == b + multiset{id}
    ensures a == b
  {
    assert a == (a + multiset{id}) - multiset{id};
    assert b == (b + multiset{id}) - multiset{id};
  }

  /** Popping a Ready task to run it. */
  lemma TakeOne(tasks: Table, tasks': Table, q: Queues, q': Queues, id: nat)
    requires QueueInv(tasks, q) && PrioritiesOk(tasks') && |q'| == PRIORITIES
    requires Queued(q) == Queued(q') + multiset{id}
    requires ReadySet(tasks') == ReadySet(tasks) - {id}
    ensures QueueInv(tasks', q') && id in ReadySet(tasks)
  {
    assert Queued(q)[id] > 0;
    assert multiset(ReadySet(tasks)) == multiset(ReadySet(tasks')) + multiset{id};
    Cancel(Queued(q'), multiset(ReadySet(tasks')), id);
  }

  /** Queueing `id` unconditionally is right exactly when it was not queued before
      and is Ready now. */
  lemma PushedBlindly(tasks: Table, tasks': Table, q: Queues, id: nat)
    requires QueueInv(tasks, q) && PrioritiesOk(tasks')
    requires ReadySet(tasks') == if id in tasks then ReadySet(tasks) + {id} else ReadySet(tasks)
    ensures QueueInv(tasks', PushReady(q, tasks', id)) <==> id in tasks && id !in ReadySet(tasks)
  {
    QueuedPush(q, PriorityOf(tasks', id), id);
    var q' := PushReady(q, tasks', id);
    assert Queued(q')[id] == Queued(q)[id] + 1;
    if id in tasks && id !in ReadySet(tasks) {
      WakeOne(tasks, tasks', q, id);
    } else {
      assert ReadySet(tasks') == ReadySet(tasks);
      assert multiset(ReadySet(tasks'))[id] != Queued(q')[id];
    }
  }
}
