/** The scheduler and IPC operations as functions on one state.
    Source: kernel/src/task/scheduler.rs, kernel/src/task.rs and the blocking
    handlers of kernel/src/task/syscall.rs.
    `accepted`, `place` and `log` are history: every accepted send gets the next
    message number, `place` says where that message is, and `log` lists what
    became of it. */
module SchedSpec {
  import opened ByteData
  import opened Wrappers
  import opened Tasks

  const USIZE_MAX: nat := 0xFFFF_FFFF_FFFF_FFFF
  const U32_MAX: nat := 0xFFFF_FFFF
  const WATCHDOG_BUDGET_TICKS: nat := 500
  /** Size of the exit reason a death notice carries. */
  const REASON_BYTES: nat := 8

  /** An accepted send. `queued` marks one buffered for a frozen target. */
  datatype Msg = Msg(sender: nat, target: nat, len: nat, queued: bool)

  datatype Place = InSender(id: nat) | InQueue(id: nat) | InDrain | Logged(idx: nat) | Gone

  datatype Outcome =
    | Delivered(mid: nat, from: nat, to: nat, data: seq<Byte>)
    | Failed(mid: nat, from: nat)

  datatype Zombie = Zombie(id: nat, task: Task)

  datatype Sched = Sched(
    tasks: Table,
    zombies: seq<Zombie>,
    nextId: nat,
    ready: Queues,
    current: nat,
    subs: map<nat, seq<nat>>,
    mem: Memory,
    netRx: bool,
    lastSweep: nat,
    accepted: seq<Msg>,
    place: seq<Place>,
    log: seq<Outcome>)

  datatype SendResult = Sent | Blocked | Refused

  function SatAdd(a: nat): nat { if a < U32_MAX then a + 1 else U32_MAX }

  // ---- memory ----------------------------------------------------------

  function Bytes(mem: Memory, ptr: nat, n: nat): (r: seq<Byte>)
    ensures |r| == n
    ensures forall i :: 0 <= i < n ==> r[i] == mem(ptr + i)
  {
    seq(n, i requires 0 <= i < n => mem(ptr + i))
  }

  function Store(mem: Memory, dst: nat, data: seq<Byte>): Memory {
    (a: nat) => if dst <= a < dst + |data| then data[a - dst] else mem(a)
  }

  function ReadU32(mem: Memory, addr: nat): nat {
    mem(addr) + 0x100 * mem(addr + 1) + 0x1_0000 * mem(addr + 2) + 0x100_0000 * mem(addr + 3)
  }

  // ---- spawn -----------------------------------------------------------

  function Spawn(s: Sched): Sched {
    var tasks' := s.tasks[s.nextId := NewTask()];
    s.(tasks := tasks', ready := PushReady(s.ready, tasks', s.nextId), nextId := s.nextId + 1)
  }

  function SetPriority(s: Sched, id: nat, p: nat): Sched {
    if id in s.tasks then s.(tasks := s.tasks[id := s.tasks[id].(priority := p)]) else s
  }

  function SetHeartbeat(s: Sched, id: nat, d: Option<nat>): Sched {
    if id in s.tasks then s.(tasks := s.tasks[id := s.tasks[id].(heartbeat := d)]) else s
  }

  /** Parks a task in a blocked state. */
  function Park(s: Sched, id: nat, st: TaskState): Sched {
    if id in s.tasks then s.(tasks := s.tasks[id := s.tasks[id].(state := st)]) else s
  }

  /** Makes a task Ready and queues it. */
  function Wake(s: Sched, id: nat): Sched {
    if id in s.tasks then
      var tasks' := s.tasks[id := s.tasks[id].(state := Ready)];
      s.(tasks := tasks', ready := PushReady(s.ready, tasks', id))
    else s
  }

  // ---- send ------------------------------------------------------------

  /** A message handed to a receiver parked in Recv: copied up to the buffer's
      length, the receiver made Ready with the sender as its caller. */
  function HandOver(s: Sched, from: nat, to: nat, data: seq<Byte>, mid: nat): Sched
    requires to in s.tasks && s.tasks[to].state.Recv? && mid < |s.place|
  {
    var t := s.tasks[to];
    var n := Min(|data|, t.state.bufLen);
    var s1 := s.(mem := Store(s.mem, t.state.bufPtr, data[..n]),
                 tasks := s.tasks[to := t.(currentCaller := Some(from))],
                 place := s.place[mid := Logged(|s.log|)],
                 log := s.log + [Delivered(mid, from, to, data[..n])]);
    Wake(s1, to)
  }

  function Accept(s: Sched, m: Msg, p: Place): Sched {
    s.(accepted := s.accepted + [m], place := s.place + [p])
  }

  function Send(s: Sched, caller: nat, target: nat, ptr: nat, len: nat): (Sched, SendResult)
    requires |s.place| == |s.accepted|
  {
    var mid := |s.accepted|;
    if target !in s.tasks then (s, Refused)
    else
      var t := s.tasks[target];
      match t.state
      case Frozen(_, _) =>
        if |t.pendingMsgs| >= HOTSWAP_MSG_QUEUE_DEPTH then (s, Refused)
        else
          var pm := PendingMsg(caller, Bytes(s.mem, ptr, len), mid);
          var s1 := Accept(s, Msg(caller, target, len, true), InQueue(target));
          (s1.(tasks := s.tasks[target := t.(pendingMsgs := t.pendingMsgs + [pm])]), Sent)
      case Recv(_, _, _, _) =>
        var s1 := Accept(s, Msg(caller, target, len, false), Gone);
        (HandOver(s1, caller, target, Bytes(s.mem, ptr, len), mid), Sent)
      case _ =>
        var s1 := Accept(s, Msg(caller, target, len, false), if caller in s.tasks then InSender(caller) else Gone);
        (Park(s1, caller, Sending(target, ptr, len, mid)), Blocked)
  }

  // ---- receive ---------------------------------------------------------

  function SendingTo(target: nat): (nat, Task) -> bool {
    (_, t: Task) => t.state.Sending? && t.state.target == target
  }

  /** The lowest-numbered task blocked sending to `target`. */
  function FirstSender(s: Sched, target: nat): Option<nat> {
    var c := Select(s.tasks, s.nextId, SendingTo(target));
    if c == [] then None else Some(c[0])
  }

  /** Copies a blocked sender's message, wakes the sender, records it as caller. */
  function TakeFrom(s: Sched, caller: nat, buf: nat, len: nat, sender: nat): Sched
    requires sender in s.tasks && s.tasks[sender].state.Sending?
  {
    var st := s.tasks[sender].state;
    var data := Bytes(s.mem, st.msgPtr, Min(st.msgLen, len));
    var s1 := Wake(s.(mem := Store(s.mem, buf, data),
                      place := if st.mid < |s.place| then s.place[st.mid := Logged(|s.log|)] else s.place,
                      log := s.log + [Delivered(st.mid, sender, caller, data)]), sender);
    if caller in s1.tasks then s1.(tasks := s1.tasks[caller := s1.tasks[caller].(currentCaller := Some(sender))])
    else s1
  }

  /** `ipc_recv`: take a waiting message (returning its sender) or park. */
  function Receive(s: Sched, caller: nat, mask: nat, buf: nat, len: nat): (Sched, nat) {
    var from := FirstSender(s, caller);
    if from.Some? && from.value in s.tasks && s.tasks[from.value].state.Sending?
    then (TakeFrom(s, caller, buf, len, from.value), from.value)
    else (Park(s, caller, Recv(mask, buf, len, None)), 0)
  }

  /** `ipc_try_recv`: never parks. */
  function TryReceive(s: Sched, caller: nat, buf: nat, len: nat): (Sched, nat) {
    var from := FirstSender(s, caller);
    if from.Some? && from.value in s.tasks && s.tasks[from.value].state.Sending?
    then (TakeFrom(s, caller, buf, len, from.value), from.value)
    else (s, 0)
  }

  /** `RecvTimeout`: like `Receive`, with a deadline when it parks. */
  function ReceiveUntil(s: Sched, caller: nat, mask: nat, buf: nat, len: nat, deadline: nat): (Sched, nat) {
    var (s1, from) := Receive(s, caller, mask, buf, len);
    if from == 0 && caller in s1.tasks && s1.tasks[caller].state.Recv?
    then (Park(s1, caller, s1.tasks[caller].state.(deadline := Some(deadline))), 0)
    else (s1, from)
  }

  /** What a death notice leaves in the receiver's buffer: the exit reason as a
      64-bit number, if it fits. */
  function StoreReason(mem: Memory, buf: nat, len: nat, reason: nat): Memory {
    if len >= REASON_BYTES then Store(mem, buf, LittleEndian(reason, REASON_BYTES)) else mem
  }

  /** The `Recv` call: a queued death notice first, then a buffered hot-swap
      message, then ordinary receive. */
  function SysReceive(s: Sched, caller: nat, mask: nat, buf: nat, len: nat): (Sched, nat) {
    if caller in s.tasks && s.tasks[caller].pendingDeaths != [] then
      var t := s.tasks[caller];
      (s.(tasks := s.tasks[caller := t.(pendingDeaths := t.pendingDeaths[1..])],
          mem := StoreReason(s.mem, buf, len, t.pendingDeaths[0].1)),
       t.pendingDeaths[0].0)
    else if caller in s.tasks && s.tasks[caller].pendingMsgs != [] then
      var t := s.tasks[caller];
      var m := t.pendingMsgs[0];
      var data := m.data[..Min(|m.data|, len)];
      (s.(tasks := s.tasks[caller := t.(pendingMsgs := t.pendingMsgs[1..], currentCaller := Some(m.sender))],
          mem := Store(s.mem, buf, data),
          place := if m.mid < |s.place| then s.place[m.mid := Logged(|s.log|)] else s.place,
          log := s.log + [Delivered(m.mid, m.sender, caller, data)]),
       m.sender)
    else Receive(s, caller, mask, buf, len)
  }

  // ---- reply (`SchedRuns` says when it keeps the invariants) -----------

  /** Whom a reply by `caller` goes to. */
  function ReplyTarget(s: Sched, caller: nat): Option<nat> {
    if caller in s.tasks then s.tasks[caller].currentCaller else None
  }

  function Reply(s: Sched, caller: nat, result: nat): Sched {
    if ReplyTarget(s, caller).Some? then
      var tid := ReplyTarget(s, caller).value;
      var tasks1 := if tid in s.tasks then s.tasks[tid := s.tasks[tid].(state := Ready, replyValue := Some(result))] else s.tasks;
      var ready1 := PushReady(s.ready, tasks1, tid);
      s.(tasks := tasks1[caller := tasks1[caller].(currentCaller := None)], ready := ready1)
    else s
  }

  // ---- futex, wait, sleep, events --------------------------------------

  function DoFutexWait(s: Sched, caller: nat, addr: nat, val: nat): (Sched, bool) {
    if ReadU32(s.mem, addr) != val || caller !in s.tasks then (s, false)
    else (Park(s, caller, FutexWait(addr)), true)
  }

  function FutexWaitingOn(addr: nat): (nat, Task) -> bool {
    (_, t: Task) => t.state == FutexWait(addr)
  }

  /** The scan stops once `count` tasks are found, but only tests that after
      adding one: a count of zero still wakes one. */
  function FutexChosen(s: Sched, addr: nat, count: nat): seq<nat> {
    var c := Select(s.tasks, s.nextId, FutexWaitingOn(addr));
    c[..Min(|c|, if count == 0 then 1 else count)]
  }

  function WakeEach(s: Sched, ids: seq<nat>): Sched
    decreases |ids|
  {
    if ids == [] then s else Wake(WakeEach(s, ids[..|ids| - 1]), ids[|ids| - 1])
  }

  function DoFutexWake(s: Sched, addr: nat, count: nat): (Sched, nat) {
    var ids := FutexChosen(s, addr, count);
    (WakeEach(s, ids), |ids|)
  }

  function DoWait(s: Sched, caller: nat, pid: nat): (Sched, bool) {
    if pid !in s.tasks then (s, false)
    else
      var s1 := s.(tasks := s.tasks[pid := s.tasks[pid].(waiters := s.tasks[pid].waiters + [caller])]);
      (Park(s1, caller, Waiting(pid)), true)
  }

  function DoSleep(s: Sched, until: nat): Sched {
    Park(s, s.current, Sleeping(until))
  }

  /** Checks for a pending event before parking. */
  function DoWaitEvent(s: Sched, caller: nat, wantNet: bool, deadline: Option<nat>): (Sched, bool) {
    if wantNet && s.netRx then (s.(netRx := false), false)
    else (Park(s, caller, WaitEvent(wantNet, deadline)), true)
  }

  // ---- death -----------------------------------------------------------

  function Subscribe(s: Sched, watched: nat, watcher: nat): Sched {
    var prior := if watched in s.subs then s.subs[watched] else [];
    s.(subs := s.subs[watched := prior + [watcher]])
  }

  /** `NotifyOnExit`: subscribe, or queue a synthetic notice for a dead task. */
  function NotifyOnExit(s: Sched, caller: nat, watched: nat): Sched {
    if watched in s.tasks then Subscribe(s, watched, caller)
    else if caller in s.tasks then
      s.(tasks := s.tasks[caller := s.tasks[caller].(pendingDeaths := s.tasks[caller].pendingDeaths + [(watched, 0)])])
    else s
  }

  function ExitRemove(s: Sched, tid: nat): Sched {
    var s1 := if tid in s.tasks
              then s.(tasks := s.tasks - {tid}, zombies := s.zombies + [Zombie(tid, s.tasks[tid].(waiters := []))])
              else s;
    s1.(ready := RemoveAll(s1.ready, tid))
  }

  /** A task after the death of `tid`: released if it was sending to it. */
  function Released(t: Task, tid: nat): Task {
    var t1 := if t.state.Sending? && t.state.target == tid then t.(state := Ready, ret := USIZE_MAX) else t;
    if t1.currentCaller == Some(tid) then t1.(currentCaller := None) else t1
  }

  function ReleaseAll(tasks: Table, tid: nat): Table {
    map id | id in tasks :: Released(tasks[id], tid)
  }

  /** Records the failed sends of `ids`, in order. */
  function FailEach(s: Sched, ids: seq<nat>): Sched
    decreases |ids|
  {
    if ids == [] then s
    else
      var s1 := FailEach(s, ids[..|ids| - 1]);
      var id := ids[|ids| - 1];
      if id in s.tasks && s.tasks[id].state.Sending? then
        var mid := s.tasks[id].state.mid;
        s1.(place := if mid < |s1.place| then s1.place[mid := Logged(|s1.log|)] else s1.place,
            log := s1.log + [Failed(mid, id)])
      else s1
  }

  function ExitSenders(s: Sched, tid: nat): Sched {
    var ids := Select(s.tasks, s.nextId, SendingTo(tid));
    var tasks' := ReleaseAll(s.tasks, tid);
    FailEach(s, ids).(tasks := tasks', ready := PushAll(s.ready, tasks', ids))
  }

  /** Wakes the tasks blocked in Wait, in the order they began to wait. */
  function ExitWaiters(s: Sched, waiters: seq<nat>, reason: nat): Sched
    decreases |waiters|
  {
    if waiters == [] then s
    else
      var s1 := ExitWaiters(s, waiters[..|waiters| - 1], reason);
      var w := waiters[|waiters| - 1];
      if w in s1.tasks then Wake(s1.(tasks := s1.tasks[w := s1.tasks[w].(replyValue := Some(reason))]), w) else s1
  }

  /** One watcher's notice: a Recv wake carrying the reason, or a queued entry. */
  function Notified(t: Task, tid: nat, reason: nat): Task {
    if t.state.Recv? then t.(state := Ready, currentCaller := Some(tid), pendingExitReason := Some(reason))
    else t.(pendingDeaths := t.pendingDeaths + [(tid, reason)])
  }

  /** Notifies watchers in order; also returns the ones that were woken. */
  function NotifyEach(tasks: Table, watchers: seq<nat>, tid: nat, reason: nat): (Table, seq<nat>)
    decreases |watchers|
  {
    if watchers == [] then (tasks, [])
    else
      var (t1, woken) := NotifyEach(tasks, watchers[..|watchers| - 1], tid, reason);
      var w := watchers[|watchers| - 1];
      if w in t1
      then (t1[w := Notified(t1[w], tid, reason)], if t1[w].state.Recv? then woken + [w] else woken)
      else (t1, woken)
  }

  function Watchers(s: Sched, tid: nat): seq<nat> {
    if tid in s.subs then s.subs[tid] else []
  }

  function ExitWatchers(s: Sched, tid: nat, reason: nat): Sched {
    var (tasks', woken) := NotifyEach(s.tasks, Watchers(s, tid), tid, reason);
    s.(tasks := tasks', ready := PushAll(s.ready, tasks', woken), subs := s.subs - {tid})
  }

  function WaitersOf(s: Sched, tid: nat): seq<nat> {
    if tid in s.tasks then s.tasks[tid].waiters else []
  }

  /** Every death path: bury the task, release its senders, wake its waiters,
      notify its watchers. */
  function Exit(s: Sched, tid: nat, reason: nat): Sched {
    ExitWatchers(ExitWaiters(ExitSenders(ExitRemove(s, tid), tid), WaitersOf(s, tid), reason), tid, reason)
  }

  /** Zombies no hart is running, and the rest. */
  function Reapable(zombies: seq<Zombie>, current: nat): (seq<Zombie>, seq<Zombie>)
    decreases |zombies|
  {
    if zombies == [] then ([], [])
    else
      var (reap, keep) := Reapable(zombies[..|zombies| - 1], current);
      var z := zombies[|zombies| - 1];
      if z.id == current then (reap, keep + [z]) else (reap + [z], keep)
  }

  // ---- timer sweep -----------------------------------------------------

  /** What the sweep does to one task at time `now`: the task, whether it wakes,
      and the pending-event flag afterwards. */
  function SweepOne(t: Task, now: nat, netRx: bool): (Task, bool, bool) {
    match t.state
    case Sleeping(until) => if now >= until then (t.(state := Ready), true, netRx) else (t, false, netRx)
    case Recv(_, _, _, Some(d)) =>
      if now >= d then (t.(state := Ready, ret := 0, deadlineMisses := SatAdd(t.deadlineMisses)), true, netRx)
      else (t, false, netRx)
    case WaitEvent(wantNet, deadline) =>
      if wantNet && netRx then (t.(state := Ready, ret := 1), true, false)
      else if deadline.Some? && now >= deadline.value
      then (t.(state := Ready, ret := 0, deadlineMisses := SatAdd(t.deadlineMisses)), true, netRx)
      else (t, false, netRx)
    case _ => (t, false, netRx)
  }

  /** The sweep over ids below `n`: new table, woken ids in order, flag. */
  function SweepTasks(tasks: Table, n: nat, now: nat, netRx: bool): (Table, seq<nat>, bool) {
    if n == 0 then (tasks, [], netRx)
    else
      var (t1, woken, rx) := SweepTasks(tasks, n - 1, now, netRx);
      if n - 1 in t1 then
        var (t', wake, rx') := SweepOne(t1[n - 1], now, rx);
        (t1[n - 1 := t'], if wake then woken + [n - 1] else woken, rx')
      else (t1, woken, rx)
  }

  function Sweep(s: Sched, now: nat): Sched {
    var (tasks', woken, rx) := SweepTasks(s.tasks, s.nextId, now, s.netRx);
    s.(tasks := tasks', ready := PushAll(s.ready, tasks', woken), netRx := rx)
  }

  function HeartbeatDue(now: nat): (nat, Task) -> bool {
    (_, t: Task) => t.heartbeat.Some? && now >= t.heartbeat.value
  }

  /** Kills one task and clears the hart's attribution to it. */
  function Kill(s: Sched, tid: nat): Sched {
    var s1 := Exit(s, tid, USIZE_MAX);
    if s1.current == tid then s1.(current := 0) else s1
  }

  /** Kills hung tasks one after the other. */
  function KillEach(s: Sched, ids: seq<nat>): Sched
    decreases |ids|
  {
    if ids == [] then s
    else Kill(KillEach(s, ids[..|ids| - 1]), ids[|ids| - 1])
  }

  function KillHung(s: Sched, now: nat): Sched {
    KillEach(s, Select(s.tasks, s.nextId, HeartbeatDue(now)))
  }

  // ---- pick next -------------------------------------------------------

  /** The outgoing half: requeue a still-running task, or kill a real-time task
      that used up its watchdog budget; reset the counter of a blocked one. */
  function Preempt(s: Sched): Sched {
    var cid := s.current;
    if cid == 0 || cid !in s.tasks then s
    else
      var t := s.tasks[cid];
      if t.state != Running then s.(tasks := s.tasks[cid := t.(runTicks := 0)])
      else if t.priority >= REAL_TIME then
        var ticks := SatAdd(t.runTicks);
        var s1 := s.(tasks := s.tasks[cid := t.(runTicks := ticks)]);
        if ticks > WATCHDOG_BUDGET_TICKS then Exit(s1, cid, USIZE_MAX).(current := 0) else Wake(s1, cid)
      else Wake(s, cid)
  }

  /** The incoming half: run the front of the highest non-empty queue, else idle. */
  function Dispatch(s: Sched): Sched {
    var (next, ready') := Pop(s.ready);
    match next
    case None => s.(current := 0)
    case Some(nid) => Park(s.(ready := ready'), nid, Running).(current := nid)
  }

  function PickNextLocal(s: Sched): Sched { Dispatch(Preempt(s)) }

  /** The timer sweep and the heartbeat kills, when there is something to look for. */
  function Swept(s: Sched, now: nat): Sched {
    if now > s.lastSweep || s.netRx then
      var s0 := if now > s.lastSweep then s.(lastSweep := now) else s;
      KillHung(Sweep(s0, now), now)
    else s
  }

  function PickNext(s: Sched, now: nat): Sched { PickNextLocal(Swept(s, now)) }

  // ---- hot-swap freezing -----------------------------------------------

  function Freeze(s: Sched, tid: nat, swapId: nat): (Sched, bool) {
    if tid in s.tasks
    then (Park(s, tid, Frozen(swapId, Awaits(s.tasks[tid].state))).(ready := RemoveAll(s.ready, tid)), true)
    else (s, false)
  }

  function Unfreeze(s: Sched, tid: nat): Sched {
    if tid in s.tasks && s.tasks[tid].state.Frozen? then Wake(s, tid) else s
  }
}
