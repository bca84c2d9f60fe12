/** The scheduler steps (timer sweep, heartbeat, preemption, dispatch, freezing)
    and the safety theorems over every run on one hart.
    Source: kernel/src/task/scheduler.rs, `pick_next` and `pick_next_local`. */
module SchedRuns {
  import opened ByteData
  import opened Wrappers
  import opened Tasks
  import opened SchedSpec
  import opened SchedSafety
  import opened SchedDeath

  // ---- timer sweep -----------------------------------------------------

  lemma {:induction false} SweepFrame(tasks: Table, n: nat, now: nat, rx: bool)
    ensures var (tasks', woken, _) := SweepTasks(tasks, n, now, rx);
            && tasks'.Keys == tasks.Keys && Ascending(woken)
            && (forall k :: 0 <= k < |woken| ==>
                  && woken[k] < n && woken[k] in tasks
                  && tasks[woken[k]].state != Ready && tasks[woken[k]].state != Running
                  && !tasks[woken[k]].state.Waiting? && !tasks[woken[k]].state.Frozen? && !tasks[woken[k]].state.Sending?)
            && forall id :: id in tasks ==>
                 && SameFrame(tasks[id], tasks'[id])
                 && (id >= n ==> tasks'[id] == tasks[id])
                 && tasks'[id].state == if id in woken then Ready else tasks[id].state
  {
    if n > 0 {
      SweepFrame(tasks, n - 1, now, rx);
      var (t1, woken, rx1) := SweepTasks(tasks, n - 1, now, rx);
      assert n - 1 !in woken;
      if n - 1 in t1 { SweepOneFrame(t1[n - 1], now, rx1); }
    }
  }

  lemma SweepOneFrame(t: Task, now: nat, rx: bool)
    ensures var (t', wake, _) := SweepOne(t, now, rx);
            && SameFrame(t, t') && t'.state == (if wake then Ready else t.state) && (!wake ==> t' == t)
            && (wake ==> t.state.Sleeping? || t.state.Recv? || t.state.WaitEvent?)
  {}

  predicate NetWaiter(tasks: Table, id: nat) {
    id in tasks && tasks[id].state.WaitEvent? && tasks[id].state.netRx
  }

  /** The pending network event survives until the first task waiting for it. */
  lemma {:induction false} EventLeft(tasks: Table, n: nat, now: nat, rx: bool)
    ensures SweepTasks(tasks, n, now, rx).2 <==> rx && forall k: nat :: k < n ==> !NetWaiter(tasks, k)
    decreases n
  {
    if n > 0 {
      EventLeft(tasks, n - 1, now, rx);
      SweepFrame(tasks, n - 1, now, rx);
      var (t1, _, rx1) := SweepTasks(tasks, n - 1, now, rx);
      assert SweepTasks(tasks, n, now, rx).2 <==> rx1 && !NetWaiter(tasks, n - 1);
    }
  }

  /** Exactly who is woken: an elapsed deadline wakes its task, and a pending
      network event wakes the lowest-numbered task waiting for it. */
  lemma {:induction false} SweepTimely(tasks: Table, n: nat, now: nat, rx: bool, id: nat)
    requires id in tasks && id < n
    ensures var woken := SweepTasks(tasks, n, now, rx).1;
            match tasks[id].state
            case Sleeping(until) => id in woken <==> now >= until
            case Recv(_, _, _, Some(d)) => id in woken <==> now >= d
            case WaitEvent(net, d) =>
              id in woken <==>
              || (d.Some? && now >= d.value)
              || (net && rx && forall k: nat :: k < id ==> !NetWaiter(tasks, k))
            case _ => id !in woken
    decreases n
  {
    SweepFrame(tasks, n - 1, now, rx);
    EventLeft(tasks, n - 1, now, rx);
    if id < n - 1 { SweepTimely(tasks, n - 1, now, rx, id); }
  }

  lemma SweepBase(s: Sched, now: nat)
    requires Base(s)
    ensures Base(Sweep(s, now))
  {
    var (tasks', woken, rx) := SweepTasks(s.tasks, s.nextId, now, s.netRx);
    SweepFrame(s.tasks, s.nextId, now, s.netRx);
    BaseBatch(s, Sweep(s, now), woken);
  }

  lemma SweepKeeps(s: Sched, now: nat)
    requires Inv(s)
    ensures Inv(Sweep(s, now))
  {
    SweepBase(s, now);
    SweepFrame(s.tasks, s.nextId, now, s.netRx);
    MsgSubKeeps(s, Sweep(s, now));
    WaitsKeep(s, Sweep(s, now));
  }

  // ---- kills -----------------------------------------------------------

  /** The hart stops attributing itself to a task that is gone or not running. */
  lemma IdleKeeps(s: Sched)
    requires Inv(s) && NothingRuns(s)
    ensures Inv(s.(current := 0))
  {
    MsgSubKeeps(s, s.(current := 0));
    WaitsKeep(s, s.(current := 0));
  }

  ghost predicate NothingRuns(s: Sched) {
    forall id :: id in s.tasks ==> s.tasks[id].state != Running
  }

  lemma KillKeeps(s: Sched, tid: nat)
    requires Inv(s)
    ensures Inv(Kill(s, tid))
  {
    var s1 := Exit(s, tid, USIZE_MAX);
    ExitKeeps(s, tid, USIZE_MAX);
    ExitFrame(s, tid, USIZE_MAX);
    if s1.current == tid { IdleKeeps(s1); }
  }

  lemma {:induction false} KillEachKeeps(s: Sched, ids: seq<nat>)
    requires Inv(s)
    ensures Inv(KillEach(s, ids))
    decreases |ids|
  {
    if ids != [] {
      KillEachKeeps(s, ids[..|ids| - 1]);
      KillKeeps(KillEach(s, ids[..|ids| - 1]), ids[|ids| - 1]);
    }
  }

  // ---- preempt and dispatch --------------------------------------------

  lemma PreemptWake(s: Sched, cid: nat)
    requires Inv(s) && cid in s.tasks && s.tasks[cid].state == Running
    ensures Inv(Wake(s, cid)) && NothingRuns(Wake(s, cid))
  {
    WakeKeeps(s, cid);
  }

  lemma PreemptKeeps(s: Sched)
    requires Inv(s)
    ensures Inv(Preempt(s)) && NothingRuns(Preempt(s))
  {
    var cid := s.current;
    if cid != 0 && cid in s.tasks {
      var t := s.tasks[cid];
      if t.state != Running {
        CosmeticKeeps(s, Preempt(s));
      } else if t.priority >= REAL_TIME {
        var s1 := s.(tasks := s.tasks[cid := t.(runTicks := SatAdd(t.runTicks))]);
        CosmeticKeeps(s, s1);
        if SatAdd(t.runTicks) > WATCHDOG_BUDGET_TICKS {
          KillKeeps(s1, cid);
          ExitFrame(s1, cid, USIZE_MAX);
        } else {
          PreemptWake(s1, cid);
        }
      } else {
        PreemptWake(s, cid);
      }
    }
  }

  lemma DispatchBase(s: Sched)
    requires Base(s) && NothingRuns(s)
    ensures Base(Dispatch(s))
    ensures Pop(s.ready).0.Some? ==> Pop(s.ready).0.value in ReadySet(s.tasks)
  {
    PopSpec(s.ready);
    var (next, ready') := Pop(s.ready);
    if next.Some? {
      var nid := next.value;
      assert nid in Queued(s.ready);
      assert nid in s.tasks;
      var tasks' := s.tasks[nid := s.tasks[nid].(state := Running)];
      TakeOne(s.tasks, tasks', s.ready, ready', nid);
    }
  }

  lemma DispatchKeeps(s: Sched)
    requires Inv(s) && NothingRuns(s)
    ensures Inv(Dispatch(s))
  {
    DispatchBase(s);
    DispatchQuiet(s);
    QuietKeeps(s, Dispatch(s));
  }

  lemma DispatchQuiet(s: Sched)
    requires Pop(s.ready).0.Some? ==> Pop(s.ready).0.value in ReadySet(s.tasks)
    ensures var s' := Dispatch(s);
            && s'.tasks.Keys == s.tasks.Keys && s'.nextId == s.nextId && s'.subs == s.subs
            && s'.accepted == s.accepted && s'.place == s.place && s'.log == s.log
            && forall id :: id in s.tasks ==> Quiet(s.tasks[id], s'.tasks[id])
  {}

  /** Dispatch picks by strict priority, oldest first, and idles only when no task
      is Ready. */
  lemma DispatchChoice(s: Sched)
    requires Base(s) && NothingRuns(s)
    ensures var s' := Dispatch(s);
            if ReadySet(s.tasks) == {} then s'.current == 0
            else exists p: nat ::
                   && p < |s.ready| && s.ready[p] != [] && s'.current == s.ready[p][0]
                   && s'.current in ReadySet(s.tasks) && s'.tasks[s'.current].state == Running
                   && forall q :: p < q < |s.ready| ==> s.ready[q] == []
  {
    DispatchBase(s);
    PopSpec(s.ready);
    if ReadySet(s.tasks) != {} {
      var id :| id in ReadySet(s.tasks);
      assert Queued(s.ready)[id] == 1;
    }
  }

  lemma SweptKeeps(s: Sched, now: nat)
    requires Inv(s)
    ensures Inv(Swept(s, now))
  {
    if now > s.lastSweep || s.netRx {
      var s0 := if now > s.lastSweep then s.(lastSweep := now) else s;
      CosmeticKeeps(s, s0);
      SweepKeeps(s0, now);
      var s1 := Sweep(s0, now);
      KillEachKeeps(s1, Select(s1.tasks, s1.nextId, HeartbeatDue(now)));
    }
  }

  lemma PickNextKeeps(s: Sched, now: nat)
    requires Inv(s)
    ensures Inv(PickNext(s, now))
  {
    SweptKeeps(s, now);
    PreemptKeeps(Swept(s, now));
    DispatchKeeps(Preempt(Swept(s, now)));
  }

  // ---- freezing --------------------------------------------------------

  lemma FreezeBase(s: Sched, tid: nat, swapId: nat)
    requires Base(s) && tid in s.tasks
    ensures Base(Freeze(s, tid, swapId).0)
  {
    var tasks' := s.tasks[tid := s.tasks[tid].(state := Frozen(swapId, Awaits(s.tasks[tid].state)))];
    assert ReadySet(tasks') == ReadySet(s.tasks) - {tid};
    Unqueue(s.tasks, tasks', s.ready, tid);
  }

  /** Freezing keeps every invariant, whatever the task was doing: one blocked in Wait
      stays on its target's list. */
  lemma FreezeKeeps(s: Sched, tid: nat, swapId: nat)
    requires Inv(s)
    ensures Inv(Freeze(s, tid, swapId).0)
  {
    if tid in s.tasks {
      FreezeBase(s, tid, swapId);
      QuietKeeps(s, Freeze(s, tid, swapId).0);
    }
  }

  /** A Ready task on a waiter list: the exit of the task it waited for would queue it
      a second time. */
  lemma ListedButReady(s: Sched, s': Sched, tid: nat)
    requires Inv(s) && tid in s.tasks && Awaits(s.tasks[tid].state).Some? && tid in s'.tasks
    requires s'.tasks.Keys == s.tasks.Keys && s'.tasks[tid].state == Ready
    requires forall id :: id in s.tasks ==> s'.tasks[id].waiters == s.tasks[id].waiters
    ensures !Inv(s')
  {
    WaitsMean(s);
    WaitsMean(s');
    var pid := Awaits(s.tasks[tid].state).value;
    assert tid in s'.tasks[pid].waiters && !WaitersOk(s', pid, s'.tasks[pid].waiters);
  }

  /** The task, if it is frozen, was not in Wait when it was. */
  predicate ThawOk(s: Sched, tid: nat) {
    tid in s.tasks && s.tasks[tid].state.Frozen? ==> Awaits(s.tasks[tid].state).None?
  }

  lemma UnfreezeKeeps(s: Sched, tid: nat)
    requires Inv(s) && ThawOk(s, tid)
    ensures Inv(Unfreeze(s, tid))
  {
    if tid in s.tasks && s.tasks[tid].state.Frozen? { WakeKeeps(s, tid); }
  }

  /** Thawing keeps the waiter lists exact if and only if the task was not blocked in
      Wait when it was frozen: it is Ready again and still on its target's list. */
  lemma ThawNeedsNoWaiter(s: Sched, tid: nat)
    requires Inv(s)
    ensures Inv(Unfreeze(s, tid)) <==> ThawOk(s, tid)
  {
    if ThawOk(s, tid) { UnfreezeKeeps(s, tid); } else { ListedButReady(s, Unfreeze(s, tid), tid); }
  }

  /** A freeze and a thaw together keep the invariants if and only if the task was not
      blocked in Wait. */
  lemma FreezeThenThaw(s: Sched, tid: nat, swapId: nat)
    requires Inv(s) && tid in s.tasks
    ensures Inv(Unfreeze(Freeze(s, tid, swapId).0, tid)) <==> Awaits(s.tasks[tid].state).None?
  {
    FreezeKeeps(s, tid, swapId);
    ThawNeedsNoWaiter(Freeze(s, tid, swapId).0, tid);
  }

  /** Thawing puts the task table back as it was before the freeze, with the same tasks
      queued, if and only if the frozen task was Ready: any other state is forgotten. */
  lemma ThawRestores(s: Sched, tid: nat, swapId: nat)
    requires Inv(s) && tid in s.tasks
    ensures var s' := Unfreeze(Freeze(s, tid, swapId).0, tid);
            s'.tasks == s.tasks && Queued(s'.ready) == Queued(s.ready) <==> s.tasks[tid].state == Ready
  {
    var f := Freeze(s, tid, swapId).0;
    var s' := Unfreeze(f, tid);
    FreezeBase(s, tid, swapId);
    BaseWake(f, tid);
    assert s'.tasks[tid].state == Ready;
    if s.tasks[tid].state == Ready { assert s'.tasks == s.tasks; }
  }

  // ---- reply -----------------------------------------------------------

  lemma ReplyFrame(s: Sched, caller: nat, result: nat)
    ensures var s', target := Reply(s, caller, result), ReplyTarget(s, caller);
            && SameRest(s, s') && s'.tasks.Keys == s.tasks.Keys && s'.mem == s.mem
            && forall id :: id in s.tasks ==>
                 && SameFrame(s.tasks[id], s'.tasks[id])
                 && s'.tasks[id].state == if target == Some(id) then Ready else s.tasks[id].state
  {}

  /** A reply looks nothing up before it queues its target. */
  lemma ReplyQueues(s: Sched, caller: nat, result: nat)
    requires Inv(s) && ReplyTarget(s, caller).Some?
    ensures var s', tid := Reply(s, caller, result), ReplyTarget(s, caller).value;
            QueueInv(s'.tasks, s'.ready) <==> tid in s.tasks && s.tasks[tid].state != Ready
  {
    var s', tid := Reply(s, caller, result), ReplyTarget(s, caller).value;
    var tasks1 := if tid in s.tasks then s.tasks[tid := s.tasks[tid].(state := Ready, replyValue := Some(result))] else s.tasks;
    assert ReadySet(tasks1) == if tid in s.tasks then ReadySet(s.tasks) + {tid} else ReadySet(s.tasks);
    assert ReadySet(s'.tasks) == ReadySet(tasks1);
    PushedBlindly(s.tasks, tasks1, s.ready, tid);
  }

  lemma ReplyPushes(s: Sched, caller: nat, result: nat)
    requires Inv(s) && ReplyTarget(s, caller).Some?
    ensures Queued(Reply(s, caller, result).ready) == Queued(s.ready) + multiset{ReplyTarget(s, caller).value}
  {
    var tid := ReplyTarget(s, caller).value;
    QueuedPush(s.ready, PriorityOf(s.tasks, tid), tid);
  }

  /** The target of a reply is live, not already Ready and on no waiter list. */
  predicate ReplyOk(s: Sched, caller: nat) {
    var target := ReplyTarget(s, caller);
    target.Some? ==> target.value in s.tasks && s.tasks[target.value].state != Ready && Awaits(s.tasks[target.value].state).None?
  }

  lemma ReplyKeeps(s: Sched, caller: nat, result: nat)
    requires Inv(s) && ReplyOk(s, caller)
    ensures Inv(Reply(s, caller, result))
  {
    if ReplyTarget(s, caller).Some? {
      var s' := Reply(s, caller, result);
      ReplyFrame(s, caller, result);
      ReplyQueues(s, caller, result);
      QuietKeeps(s, s');
    }
  }

  lemma ReadyIsQueued(s: Sched, id: nat)
    requires Inv(s) && id in s.tasks && s.tasks[id].state == Ready
    ensures Queued(s.ready)[id] == 1
  {
    QueueInvMeans(s.tasks, s.ready, id);
  }

  /** The target of an allowed reply is Ready and queued once. */
  lemma ReplyWakes(s: Sched, caller: nat, result: nat)
    requires Inv(s) && ReplyOk(s, caller) && ReplyTarget(s, caller).Some?
    ensures var s', tid := Reply(s, caller, result), ReplyTarget(s, caller).value;
            tid in s'.tasks && s'.tasks[tid].state == Ready && Queued(s'.ready)[tid] == 1
  {
    ReplyKeeps(s, caller, result);
    ReplyFrame(s, caller, result);
    ReadyIsQueued(Reply(s, caller, result), ReplyTarget(s, caller).value);
  }

  /** `ipc_reply` makes its caller's caller Ready and queues it without looking at
      it. The invariants survive if and only if that task is live, not already Ready
      and not blocked in Wait, now or when it was frozen. */
  lemma ReplyNeedsBlockedCaller(s: Sched, caller: nat, result: nat)
    requires Inv(s)
    ensures Inv(Reply(s, caller, result)) <==> ReplyOk(s, caller)
  {
    if ReplyOk(s, caller) {
      ReplyKeeps(s, caller, result);
    } else {
      var s', tid := Reply(s, caller, result), ReplyTarget(s, caller).value;
      ReplyFrame(s, caller, result);
      ReplyQueues(s, caller, result);
      if tid in s.tasks && Awaits(s.tasks[tid].state).Some? { ListedButReady(s, s', tid); }
    }
  }

  // ---- runs ------------------------------------------------------------

  /** One step of the system. Calls are made by the hart's current task. */
  datatype Label =
    | LSpawn
    | LSetPriority(id: nat, p: nat)
    | LHeartbeat(d: Option<nat>)
    | LSend(target: nat, ptr: nat, len: nat)
    | LKernelSend(target: nat, ptr: nat, len: nat)
    | LRecv(mask: nat, buf: nat, len: nat)
    | LRecvUntil(mask: nat, buf: nat, len: nat, deadline: nat)
    | LTryRecv(buf: nat, len: nat)
    | LReply(result: nat)
    | LFutexWait(addr: nat, val: nat)
    | LFutexWake(addr: nat, count: nat)
    | LWait(pid: nat)
    | LSleep(until: nat)
    | LWaitEvent(wantNet: bool, due: Option<nat>)
    | LNotifyOnExit(watched: nat)
    | LExit(tid: nat, reason: nat)
    | LPickNext(now: nat)
    | LNetRx
    | LWrite(addr: nat, b: Byte)
    | LReap
    | LFreeze(tid: nat, swapId: nat)
    | LUnfreeze(tid: nat)

  /** The current task is live and running, so it can make a call. */
  predicate Acting(s: Sched) {
    s.current in s.tasks && s.tasks[s.current].state == Running
  }

  predicate Enabled(s: Sched, l: Label) {
    match l
    case LSpawn | LKernelSend(_, _, _) | LExit(_, _) | LPickNext(_) | LNetRx | LWrite(_, _) | LReap | LFreeze(_, _) => true
    case LSetPriority(_, p) => p < PRIORITIES
    case LUnfreeze(tid) => ThawOk(s, tid)
    case LReply(_) => Acting(s) && ReplyOk(s, s.current)
    case _ => Acting(s)
  }

  ghost function Step(s: Sched, l: Label): Sched
    requires |s.place| == |s.accepted|
  {
    match l
    case LSpawn => Spawn(s)
    case LSetPriority(id, p) => SetPriority(s, id, p)
    case LHeartbeat(d) => SetHeartbeat(s, s.current, d)
    case LSend(target, ptr, len) => Send(s, s.current, target, ptr, len).0
    case LKernelSend(target, ptr, len) => Send(s, 0, target, ptr, len).0
    case LRecv(mask, buf, len) => SysReceive(s, s.current, mask, buf, len).0
    case LRecvUntil(mask, buf, len, d) => ReceiveUntil(s, s.current, mask, buf, len, d).0
    case LTryRecv(buf, len) => TryReceive(s, s.current, buf, len).0
    case LReply(result) => Reply(s, s.current, result)
    case LFutexWait(addr, val) => DoFutexWait(s, s.current, addr, val).0
    case LFutexWake(addr, count) => DoFutexWake(s, addr, count).0
    case LWait(pid) => DoWait(s, s.current, pid).0
    case LSleep(until) => DoSleep(s, until)
    case LWaitEvent(wantNet, d) => DoWaitEvent(s, s.current, wantNet, d).0
    case LNotifyOnExit(watched) => NotifyOnExit(s, s.current, watched)
    case LExit(tid, reason) => Exit(s, tid, reason)
    case LPickNext(now) => PickNext(s, now)
    case LNetRx => s.(netRx := true)
    case LWrite(addr, b) => s.(mem := Store(s.mem, addr, [b]))
    case LReap => s.(zombies := Reapable(s.zombies, s.current).1)
    case LFreeze(tid, swapId) => Freeze(s, tid, swapId).0
    case LUnfreeze(tid) => Unfreeze(s, tid)
  }

  /** Reaping splits the zombies: none is lost or duplicated, and those with the id of the
      hart's current task are kept. */
  lemma {:induction false} ReapableSpec(zs: seq<Zombie>, current: nat)
    ensures var (reap, keep) := Reapable(zs, current);
            && multiset(reap) + multiset(keep) == multiset(zs)
            && (forall z :: z in reap ==> z.id != current)
            && (forall z :: z in keep ==> z.id == current && z in zs)
  {
    if zs != [] {
      var k := |zs| - 1;
      ReapableSpec(zs[..k], current);
      var (reap, keep) := Reapable(zs[..k], current);
      assert zs == zs[..k] + [zs[k]];
      if zs[k].id == current {
        assert multiset(reap) + multiset(keep + [zs[k]]) == multiset(reap) + multiset(keep) + multiset{zs[k]};
      } else {
        assert multiset(reap + [zs[k]]) + multiset(keep) == multiset(reap) + multiset(keep) + multiset{zs[k]};
      }
    }
  }

  lemma ReapKeeps(s: Sched)
    requires Inv(s)
    ensures Inv(s.(zombies := Reapable(s.zombies, s.current).1))
  {
    var s' := s.(zombies := Reapable(s.zombies, s.current).1);
    ReapableSpec(s.zombies, s.current);
    MsgSubKeeps(s, s');
    WaitsKeep(s, s');
  }

  lemma NotifyKeeps(s: Sched, watched: nat)
    requires Inv(s) && Acting(s)
    ensures Inv(NotifyOnExit(s, s.current, watched))
  {
    var s' := NotifyOnExit(s, s.current, watched);
    if watched in s.tasks {
      MsgSubKeeps(s, s');
      WaitsKeep(s, s');
    } else {
      CosmeticKeeps(s, s');
    }
  }

  predicate Messaging(l: Label) { l.LSend? || l.LRecv? || l.LRecvUntil? || l.LTryRecv? }

  lemma MessageStepKeeps(s: Sched, l: Label)
    requires Inv(s) && Acting(s)
    requires Messaging(l)
    ensures Inv(Step(s, l))
  {
    match l
    case LSend(target, ptr, len) => SendStepKeeps(s, target, ptr, len);
    case LRecv(mask, buf, len) => RecvStepKeeps(s, mask, buf, len);
    case LRecvUntil(mask, buf, len, d) => RecvUntilStepKeeps(s, mask, buf, len, d);
    case LTryRecv(buf, len) => TryRecvStepKeeps(s, buf, len);
  }

  lemma SendStepKeeps(s: Sched, target: nat, ptr: nat, len: nat)
    requires Inv(s) && Acting(s)
    ensures Inv(Step(s, LSend(target, ptr, len)))
  {
    SendKeeps(s, s.current, target, ptr, len);
  }

  lemma RecvStepKeeps(s: Sched, mask: nat, buf: nat, len: nat)
    requires Inv(s) && Acting(s)
    ensures Inv(Step(s, LRecv(mask, buf, len)))
  {
    SysReceiveKeeps(s, s.current, mask, buf, len);
  }

  lemma RecvUntilStepKeeps(s: Sched, mask: nat, buf: nat, len: nat, d: nat)
    requires Inv(s) && Acting(s)
    ensures Inv(Step(s, LRecvUntil(mask, buf, len, d)))
  {
    ReceiveUntilKeeps(s, s.current, mask, buf, len, d);
    assert Step(s, LRecvUntil(mask, buf, len, d)) == ReceiveUntil(s, s.current, mask, buf, len, d).0;
  }

  lemma TryRecvStepKeeps(s: Sched, buf: nat, len: nat)
    requires Inv(s)
    ensures Inv(Step(s, LTryRecv(buf, len)))
  {
    TryReceiveKeeps(s, s.current, buf, len);
  }

  lemma WaitEventKeeps(s: Sched, wantNet: bool, d: Option<nat>)
    requires Inv(s) && Acting(s)
    ensures Inv(DoWaitEvent(s, s.current, wantNet, d).0)
  {
    if wantNet && s.netRx { CosmeticKeeps(s, s.(netRx := false)); }
    else { ParkKeeps(s, s.current, WaitEvent(wantNet, d)); }
  }

  lemma HeartbeatKeeps(s: Sched, d: Option<nat>)
    requires Inv(s)
    ensures Inv(SetHeartbeat(s, s.current, d))
  {
    CosmeticKeeps(s, SetHeartbeat(s, s.current, d));
  }

  lemma BlockStepKeeps(s: Sched, l: Label)
    requires Inv(s) && Acting(s)
    requires l.LFutexWait? || l.LFutexWake? || l.LSleep?
    ensures Inv(Step(s, l))
  {
    match l
    case LFutexWait(addr, val) => ParkKeeps(s, s.current, FutexWait(addr));
    case LFutexWake(addr, count) => FutexWakeKeeps(s, addr, count);
    case LSleep(until) => ParkKeeps(s, s.current, Sleeping(until));
  }

  lemma WaitStepKeeps(s: Sched, pid: nat)
    requires Inv(s) && Acting(s)
    ensures Inv(Step(s, LWait(pid)))
  {
    DoWaitKeeps(s, s.current, pid);
  }

  lemma EventStepKeeps(s: Sched, wantNet: bool, d: Option<nat>)
    requires Inv(s) && Acting(s)
    ensures Inv(Step(s, LWaitEvent(wantNet, d)))
  {
    WaitEventKeeps(s, wantNet, d);
  }

  lemma NoteStepKeeps(s: Sched, l: Label)
    requires Inv(s) && Acting(s) && (l.LNotifyOnExit? || l.LHeartbeat?)
    ensures Inv(Step(s, l))
  {
    match l
    case LNotifyOnExit(watched) => NotifyKeeps(s, watched);
    case LHeartbeat(d) => HeartbeatKeeps(s, d);
  }

  predicate Ambient(l: Label) {
    l.LSpawn? || l.LSetPriority? || l.LKernelSend? || l.LNetRx? || l.LWrite? || l.LReap?
  }

  lemma AmbientKeeps(s: Sched, l: Label)
    requires Inv(s) && Enabled(s, l) && Ambient(l)
    ensures Inv(Step(s, l))
  {
    match l
    case LSpawn => SpawnKeeps(s);
    case LSetPriority(id, p) => SetPriorityKeeps(s, id, p);
    case LKernelSend(target, ptr, len) => SendKeeps(s, 0, target, ptr, len);
    case LNetRx => CosmeticKeeps(s, Step(s, l));
    case LWrite(_, _) => CosmeticKeeps(s, Step(s, l));
    case LReap => ReapKeeps(s);
  }

  predicate Scheduling(l: Label) { l.LExit? || l.LPickNext? }

  lemma SchedulingKeeps(s: Sched, l: Label)
    requires Inv(s) && Scheduling(l)
    ensures Inv(Step(s, l))
  {
    match l
    case LExit(tid, reason) => ExitStepKeeps(s, tid, reason);
    case LPickNext(now) => PickStepKeeps(s, now);
  }

  lemma ExitStepKeeps(s: Sched, tid: nat, reason: nat)
    requires Inv(s)
    ensures Inv(Step(s, LExit(tid, reason)))
  {
    ExitKeeps(s, tid, reason);
  }

  lemma PickStepKeeps(s: Sched, now: nat)
    requires Inv(s)
    ensures Inv(Step(s, LPickNext(now)))
  {
    PickNextKeeps(s, now);
  }

  predicate Switching(l: Label) { l.LFreeze? || l.LUnfreeze? || l.LReply? }

  lemma SwitchingKeeps(s: Sched, l: Label)
    requires Inv(s) && Enabled(s, l) && Switching(l)
    ensures Inv(Step(s, l))
  {
    match l
    case LFreeze(tid, swapId) => FreezeKeeps(s, tid, swapId);
    case LUnfreeze(tid) => UnfreezeKeeps(s, tid);
    case LReply(result) => ReplyKeeps(s, s.current, result);
  }

  lemma CallKeeps(s: Sched, l: Label)
    requires Inv(s) && Acting(s) && !Ambient(l) && !Scheduling(l) && !Switching(l)
    ensures Inv(Step(s, l))
  {
    if Messaging(l) { MessageStepKeeps(s, l); }
    else if l.LFutexWait? || l.LFutexWake? || l.LSleep? { BlockStepKeeps(s, l); }
    else if l.LWait? { WaitStepKeeps(s, l.pid); }
    else if l.LWaitEvent? { EventStepKeeps(s, l.wantNet, l.due); }
    else { NoteStepKeeps(s, l); }
  }

  /** Every enabled step keeps every invariant. */
  lemma StepKeeps(s: Sched, l: Label)
    requires Inv(s) && Enabled(s, l)
    ensures Inv(Step(s, l))
  {
    if Ambient(l) { AmbientKeeps(s, l); }
    else if Scheduling(l) { SchedulingKeeps(s, l); }
    else if Switching(l) { SwitchingKeeps(s, l); }
    else { CallKeeps(s, l); }
  }

  /** An empty system. */
  ghost function Boot(mem: Memory): Sched {
    Sched(map[], [], 1, seq(PRIORITIES, _ => []), 0, map[], mem, false, 0, [], [], [])
  }

  lemma BootInv(mem: Memory)
    ensures Inv(Boot(mem))
  {
    var s := Boot(mem);
    EmptyQueues(s.ready);
    assert ReadySet(s.tasks) == {};
    MessagesMean(s);
    WaitsMean(s);
  }

  /** `s` is reached from an empty system by the steps of `run`. */
  ghost predicate Reaches(mem: Memory, run: seq<Label>, s: Sched)
    decreases |run|
  {
    if run == [] then s == Boot(mem)
    else
      var k := |run| - 1;
      exists prev: Sched ::
        && Reaches(mem, run[..k], prev)
        && |prev.place| == |prev.accepted| && Enabled(prev, run[k]) && s == Step(prev, run[k])
  }

  lemma ReachesNext(mem: Memory, run: seq<Label>, s: Sched, l: Label)
    requires Reaches(mem, run, s) && Inv(s) && Enabled(s, l)
    ensures Reaches(mem, run + [l], Step(s, l)) && Inv(Step(s, l))
  {
    assert (run + [l])[..|run|] == run;
    StepKeeps(s, l);
  }

  lemma {:induction false} ReachableInv(mem: Memory, run: seq<Label>, s: Sched)
    requires Reaches(mem, run, s)
    ensures Inv(s)
    decreases |run|
  {
    if run == [] {
      BootInv(mem);
    } else {
      var k := |run| - 1;
      var prev :| Reaches(mem, run[..k], prev) && |prev.place| == |prev.accepted|
                  && Enabled(prev, run[k]) && s == Step(prev, run[k]);
      ReachableInv(mem, run[..k], prev);
      StepKeeps(prev, run[k]);
    }
  }

  /** On every run: a task is queued exactly once when it is live and Ready and
      nowhere otherwise, and only the current task is ever Running. */
  lemma QueuesAreExact(mem: Memory, run: seq<Label>, s: Sched)
    requires Reaches(mem, run, s)
    ensures forall id: nat :: Queued(s.ready)[id] == if id in s.tasks && s.tasks[id].state == Ready then 1 else 0
    ensures forall id :: id in s.tasks && s.tasks[id].state == Running ==> id == s.current
  {
    ReachableInv(mem, run, s);
    forall id: nat
      ensures Queued(s.ready)[id] == if id in s.tasks && s.tasks[id].state == Ready then 1 else 0
    {
      QueueInvMeans(s.tasks, s.ready, id);
    }
  }

  /** On every run: no live task is sending to a dead one, every message has at
      most one outcome, and that outcome matches the accepted send. */
  lemma MessagesAreExact(mem: Memory, run: seq<Label>, s: Sched)
    requires Reaches(mem, run, s)
    ensures SendInv(s)
    ensures |s.place| == |s.accepted|
    ensures forall i, j :: 0 <= i < j < |s.log| ==> s.log[i].mid != s.log[j].mid
    ensures forall i :: 0 <= i < |s.log| ==>
              var e := s.log[i];
              && e.mid < |s.accepted| && e.from == s.accepted[e.mid].sender
              && (e.Delivered? ==> |e.data| <= s.accepted[e.mid].len)
              && (e.Delivered? && !s.accepted[e.mid].queued ==> e.to == s.accepted[e.mid].target)
    ensures forall id, i :: id in s.tasks && s.tasks[id].state.Sending? && 0 <= i < |s.log| ==>
              s.log[i].mid != s.tasks[id].state.mid
  {
    ReachableInv(mem, run, s);
    MessagesMean(s);
    forall i, j | 0 <= i < j < |s.log|
      ensures s.log[i].mid != s.log[j].mid
    {
      assert LogHolds(s, i) && LogHolds(s, j);
    }
    forall i | 0 <= i < |s.log|
      ensures var e := s.log[i];
              && e.mid < |s.accepted| && e.from == s.accepted[e.mid].sender
              && (e.Delivered? ==> |e.data| <= s.accepted[e.mid].len)
              && (e.Delivered? && !s.accepted[e.mid].queued ==> e.to == s.accepted[e.mid].target)
    {
      assert LogHolds(s, i);
    }
    forall id, i | id in s.tasks && s.tasks[id].state.Sending? && 0 <= i < |s.log|
      ensures s.log[i].mid != s.tasks[id].state.mid
    {
      assert SenderHolds(s, id) && LogHolds(s, i);
    }
  }

  // ---- what a delivery copies ------------------------------------------

  /** An immediate delivery copies the longest prefix that fits, into the
      receiver's buffer and nowhere else. */
  lemma SendCopies(s: Sched, caller: nat, target: nat, ptr: nat, len: nat)
    requires |s.place| == |s.accepted| && target in s.tasks && s.tasks[target].state.Recv?
    ensures var (s', r), st := Send(s, caller, target, ptr, len), s.tasks[target].state;
            var n := Min(len, st.bufLen);
            && r == Sent
            && s'.log == s.log + [Delivered(|s.accepted|, caller, target, Bytes(s.mem, ptr, n))]
            && Bytes(s'.mem, st.bufPtr, n) == Bytes(s.mem, ptr, n)
            && (forall a: nat :: !(st.bufPtr <= a < st.bufPtr + n) ==> s'.mem(a) == s.mem(a))
            && s'.tasks[target].state == Ready && s'.tasks[target].currentCaller == Some(caller)
            && (caller != target && caller in s.tasks ==> s'.tasks[caller] == s.tasks[caller])
  {
    var st := s.tasks[target].state;
    var n := Min(len, st.bufLen);
    assert Bytes(s.mem, ptr, len)[..n] == Bytes(s.mem, ptr, n);
  }

  /** A receive from a blocked sender does the same, and wakes the sender. */
  lemma ReceiveCopies(s: Sched, caller: nat, buf: nat, len: nat, sender: nat)
    requires Inv(s) && caller in s.tasks && caller != sender
    requires FirstSender(s, caller) == Some(sender)
    ensures sender in s.tasks && s.tasks[sender].state.Sending? && s.tasks[sender].state.target == caller
    ensures var s', st := TryReceive(s, caller, buf, len).0, s.tasks[sender].state;
            var n := Min(st.msgLen, len);
            && s'.log == s.log + [Delivered(st.mid, sender, caller, Bytes(s.mem, st.msgPtr, n))]
            && Bytes(s'.mem, buf, n) == Bytes(s.mem, st.msgPtr, n)
            && (forall a: nat :: !(buf <= a < buf + n) ==> s'.mem(a) == s.mem(a))
            && s'.tasks[sender].state == Ready && s'.tasks[caller].currentCaller == Some(sender)
  {
    FirstSenderSpec(s, caller);
  }
}
