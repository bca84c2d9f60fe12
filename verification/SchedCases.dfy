/** Reachable states at which a reply or a freeze does what the exact conditions of
    `SchedRuns` and `SchedFate` warn of: every run here starts from an empty system.
    Source: kernel/src/task.rs, `ipc_reply`; kernel/src/cell/hotswap.rs. */
module SchedCases {
  import opened Wrappers
  import opened Tasks
  import opened SchedSpec
  import opened SchedSafety
  import opened SchedRuns
  import opened SchedFate

  /** A task as it was spawned, in the fields the steps below look at. */
  ghost predicate Plain(t: Task) {
    t.priority == NORMAL && t.pendingDeaths == [] && t.pendingMsgs == []
  }

  /** Task 1 alone. */
  ghost predicate Alone(s: Sched, st: TaskState, caller: Option<nat>, current: nat) {
    && s.tasks.Keys == {1} && s.nextId == 2 && s.current == current && !s.netRx && s.lastSweep == 0
    && s.tasks[1].state == st && s.tasks[1].currentCaller == caller && Plain(s.tasks[1])
  }

  /** Tasks 1 and 2. */
  ghost predicate Pair(s: Sched, st1: TaskState, caller: Option<nat>, st2: TaskState, current: nat) {
    && s.tasks.Keys == {1, 2} && s.nextId == 3 && s.current == current && !s.netRx && s.lastSweep == 0
    && s.tasks[1].state == st1 && s.tasks[1].currentCaller == caller && s.tasks[2].state == st2
    && Plain(s.tasks[1]) && Plain(s.tasks[2])
  }

  /** The only Ready task is the one dispatched. */
  lemma PickOnly(s: Sched, id: nat)
    requires Inv(s) && !s.netRx && s.lastSweep == 0 && ReadySet(Preempt(s).tasks) == {id}
    ensures var s', p := PickNext(s, 0), Preempt(s);
            && id in p.tasks && s'.tasks == p.tasks[id := p.tasks[id].(state := Running)]
            && s' == p.(tasks := s'.tasks, ready := s'.ready, current := id)
  {
    PreemptKeeps(s);
    DispatchChoice(Preempt(s));
    DispatchBase(Preempt(s));
    assert id in ReadySet(Preempt(s).tasks);
  }

  lemma NobodySends(s: Sched, target: nat)
    requires forall id :: id in s.tasks ==> !s.tasks[id].state.Sending?
    ensures FirstSender(s, target).None?
  {
    var c := Select(s.tasks, s.nextId, SendingTo(target));
    SelectSpec(s.tasks, s.nextId, SendingTo(target));
    assert forall k :: 0 <= k < |c| ==> c[k] in c;
  }

  // ---- one task --------------------------------------------------------

  lemma Born(mem: Memory) returns (run: seq<Label>, s: Sched)
    ensures Reaches(mem, run, s) && Inv(s) && Alone(s, Ready, None, 0)
  {
    BootInv(mem);
    assert Reaches(mem, [], Boot(mem));
    ReachesNext(mem, [], Boot(mem), LSpawn);
    run, s := [] + [LSpawn], Step(Boot(mem), LSpawn);
  }

  lemma ParksAlone(s: Sched)
    requires Alone(s, Running, None, 1)
    ensures Alone(SysReceive(s, 1, 0, 0, 0).0, Recv(0, 0, 0, None), None, 1)
  {
    NobodySends(s, 1);
  }

  /** Task 1 parked in Recv. */
  lemma Parked(mem: Memory) returns (run: seq<Label>, s: Sched)
    ensures Reaches(mem, run, s) && Inv(s) && Alone(s, Recv(0, 0, 0, None), None, 1)
  {
    var run1, s1 := Born(mem);
    var run2, s2 := Picked(mem, run1, s1, None);
    ParksAlone(s2);
    ReachesNext(mem, run2, s2, LRecv(0, 0, 0));
    run, s := run2 + [LRecv(0, 0, 0)], Step(s2, LRecv(0, 0, 0));
  }

  lemma PickedAlone(s: Sched, caller: Option<nat>)
    requires Inv(s) && (Alone(s, Ready, caller, 0) || Alone(s, Ready, caller, 1))
    ensures Alone(PickNext(s, 0), Running, caller, 1)
  {
    assert ReadySet(Preempt(s).tasks) == {1};
    PickOnly(s, 1);
  }

  lemma Picked(mem: Memory, run0: seq<Label>, s0: Sched, caller: Option<nat>) returns (run: seq<Label>, s: Sched)
    requires Reaches(mem, run0, s0) && Inv(s0)
    requires Alone(s0, Ready, caller, 0) || Alone(s0, Ready, caller, 1)
    ensures Reaches(mem, run, s) && Inv(s) && Alone(s, Running, caller, 1)
  {
    PickedAlone(s0, caller);
    ReachesNext(mem, run0, s0, LPickNext(0));
    run, s := run0 + [LPickNext(0)], Step(s0, LPickNext(0));
  }

  lemma KernelServes(s: Sched)
    requires Alone(s, Recv(0, 0, 0, None), None, 1) && |s.place| == |s.accepted|
    ensures Alone(Send(s, 0, 1, 0, 0).0, Ready, Some(0), 1)
  {}

  /** A message from the kernel leaves 0 as the caller, and the reply to it queues a task
      that does not exist. */
  lemma ReplyToKernel(mem: Memory) returns (run: seq<Label>, s: Sched)
    ensures Reaches(mem, run, s) && Inv(s) && Acting(s)
    ensures ReplyTarget(s, s.current) == Some(0) && 0 !in s.tasks && !Inv(Reply(s, s.current, 0))
    ensures Queued(Reply(s, s.current, 0).ready)[0] == 1
  {
    var run1, s1 := Parked(mem);
    ReachesNext(mem, run1, s1, LKernelSend(1, 0, 0));
    KernelServes(s1);
    run, s := Picked(mem, run1 + [LKernelSend(1, 0, 0)], Step(s1, LKernelSend(1, 0, 0)), Some(0));
    ReplyNeedsBlockedCaller(s, 1, 0);
    ReplyPushes(s, 1, 0);
    QueueInvMeans(s.tasks, s.ready, 0);
  }

  // ---- two tasks -------------------------------------------------------

  lemma PreemptedTwo(s: Sched, st1: TaskState, caller: Option<nat>, st2: TaskState, current: nat)
    requires Pair(s, st1, caller, st2, current) && st1 != Running && st2 != Running
    ensures Pair(Preempt(s), st1, caller, st2, current)
  {}

  lemma PickedTwo(s: Sched, st1: TaskState, caller: Option<nat>, st2: TaskState, current: nat, id: nat)
    requires Inv(s) && Pair(s, st1, caller, st2, current) && st1 != Running && st2 != Running
    requires (id == 1 && st1 == Ready && st2 != Ready) || (id == 2 && st2 == Ready && st1 != Ready)
    ensures Pair(PickNext(s, 0), if id == 1 then Running else st1, caller, if id == 2 then Running else st2, id)
  {
    PreemptedTwo(s, st1, caller, st2, current);
    assert ReadySet(Preempt(s).tasks) == {id};
    PickOnly(s, id);
  }

  lemma PickedPair(mem: Memory, run0: seq<Label>, s0: Sched, st1: TaskState, caller: Option<nat>, st2: TaskState,
                   current: nat, id: nat)
    returns (run: seq<Label>, s: Sched)
    requires Reaches(mem, run0, s0) && Inv(s0) && Pair(s0, st1, caller, st2, current) && st1 != Running
    requires st2 != Running
    requires (id == 1 && st1 == Ready && st2 != Ready) || (id == 2 && st2 == Ready && st1 != Ready)
    ensures Reaches(mem, run, s) && Inv(s)
    ensures Pair(s, if id == 1 then Running else st1, caller, if id == 2 then Running else st2, id)
  {
    PickedTwo(s0, st1, caller, st2, current, id);
    ReachesNext(mem, run0, s0, LPickNext(0));
    run, s := run0 + [LPickNext(0)], Step(s0, LPickNext(0));
  }

  /** Task 2 runs while task 1 is parked. */
  lemma Joined(mem: Memory) returns (run: seq<Label>, s: Sched)
    ensures Reaches(mem, run, s) && Inv(s) && Pair(s, Recv(0, 0, 0, None), None, Running, 2)
  {
    var run1, s1 := Parked(mem);
    ReachesNext(mem, run1, s1, LSpawn);
    var s2 := Step(s1, LSpawn);
    assert Pair(s2, Recv(0, 0, 0, None), None, Ready, 1);
    run, s := PickedPair(mem, run1 + [LSpawn], s2, Recv(0, 0, 0, None), None, Ready, 1, 2);
  }

  lemma SentTo(s: Sched)
    requires Pair(s, Recv(0, 0, 0, None), None, Running, 2) && |s.place| == |s.accepted|
    ensures Pair(Send(s, 2, 1, 0, 0).0, Ready, Some(2), Running, 2)
  {}

  /** Task 2 runs, having just sent to task 1, which is Ready with 2 as its caller. */
  lemma Served(mem: Memory) returns (run: seq<Label>, s: Sched)
    ensures Reaches(mem, run, s) && Inv(s) && Pair(s, Ready, Some(2), Running, 2)
  {
    var run1, s1 := Joined(mem);
    ReachesNext(mem, run1, s1, LSend(1, 0, 0));
    SentTo(s1);
    run, s := run1 + [LSend(1, 0, 0)], Step(s1, LSend(1, 0, 0));
  }

  /** One more step by task 2 that takes it out of the way, then task 1 runs. */
  lemma ServedThen(mem: Memory, l: Label, st2: TaskState, run0: seq<Label>, s0: Sched)
    returns (run: seq<Label>, s: Sched)
    requires Reaches(mem, run0, s0) && Inv(s0) && Enabled(s0, l) && Pair(Step(s0, l), Ready, Some(2), st2, 2)
    requires st2 != Ready && st2 != Running
    ensures Reaches(mem, run, s) && Inv(s) && Pair(s, Running, Some(2), st2, 1)
  {
    ReachesNext(mem, run0, s0, l);
    run, s := PickedPair(mem, run0 + [l], Step(s0, l), Ready, Some(2), st2, 2, 1);
  }

  /** The caller went on to Wait: the reply makes it Ready while it is still on a waiter
      list, and so does the thaw after a freeze. */
  lemma ReplyToWaiter(mem: Memory) returns (run: seq<Label>, s: Sched)
    ensures Reaches(mem, run, s) && Inv(s) && Acting(s)
    ensures ReplyTarget(s, s.current) == Some(2) && 2 in s.tasks && s.tasks[2].state == Waiting(1)
    ensures !Inv(Reply(s, s.current, 0)) && !Inv(Unfreeze(Freeze(s, 2, 7).0, 2))
  {
    run, s := ServedWaiter(mem);
    ReplyNeedsBlockedCaller(s, 1, 0);
    FreezeThenThaw(s, 2, 7);
  }

  lemma ServedWaiter(mem: Memory) returns (run: seq<Label>, s: Sched)
    ensures Reaches(mem, run, s) && Inv(s) && Pair(s, Running, Some(2), Waiting(1), 1)
  {
    var run1, s1 := Served(mem);
    run, s := ServedThen(mem, LWait(1), Waiting(1), run1, s1);
  }

  /** A task frozen in Wait is Ready, and queued, once the task it waits for exits. */
  lemma FrozenInWait(mem: Memory) returns (run: seq<Label>, s: Sched)
    ensures Reaches(mem, run, s) && Inv(s) && 2 in s.tasks && s.tasks[2].state == Frozen(7, Some(1))
    ensures var s' := Exit(s, 1, 0); 2 in s'.tasks && s'.tasks[2].state == Ready && Queued(s'.ready)[2] == 1
  {
    var run1, s1 := ServedWaiter(mem);
    ReachesNext(mem, run1, s1, LFreeze(2, 7));
    run, s := run1 + [LFreeze(2, 7)], Step(s1, LFreeze(2, 7));
    ExitReleases(s, 2, 1, 0);
  }

  /** The caller is frozen: the reply is allowed, and makes it Ready and queued. */
  lemma ReplyToFrozen(mem: Memory) returns (run: seq<Label>, s: Sched)
    ensures Reaches(mem, run, s) && Enabled(s, LReply(0))
    ensures 2 in s.tasks && s.tasks[2].state == Frozen(7, None)
    ensures var s' := Reply(s, s.current, 0); 2 in s'.tasks && s'.tasks[2].state == Ready && Queued(s'.ready)[2] == 1
  {
    run, s := ServedFrozen(mem);
    ReplyWakes(s, 1, 0);
  }

  lemma ServedFrozen(mem: Memory) returns (run: seq<Label>, s: Sched)
    ensures Reaches(mem, run, s) && Inv(s) && Pair(s, Running, Some(2), Frozen(7, None), 1)
  {
    var run1, s1 := Served(mem);
    FreezesSecond(s1);
    run, s := ServedThen(mem, LFreeze(2, 7), Frozen(7, None), run1, s1);
  }

  lemma FreezesSecond(s: Sched)
    requires Pair(s, Ready, Some(2), Running, 2)
    ensures Pair(Freeze(s, 2, 7).0, Ready, Some(2), Frozen(7, None), 2)
  {}

  /** The caller is blocked in another send: a reply to it, or a freeze of it, loses that
      message with no outcome logged. */
  lemma ReplyToSender(mem: Memory) returns (run: seq<Label>, s: Sched)
    ensures Reaches(mem, run, s) && Enabled(s, LReply(0)) && Enabled(s, LFreeze(2, 7)) && |s.place| == |s.accepted|
    ensures 2 in s.tasks && s.tasks[2].state.Sending?
    ensures forall l :: l == LReply(0) || l == LFreeze(2, 7) ==>
              var s', st := Step(s, l), s.tasks[2].state;
              2 in s'.tasks && s'.tasks[2].state != st && !Told(s, s', st.mid)
  {
    var run1, s1 := Served(mem);
    var st := Sending(1, 0, 0, |s1.accepted|);
    run, s := ServedThen(mem, LSend(1, 0, 0), st, run1, s1);
    NoSilentLoss(s, LReply(0), 2);
    NoSilentLoss(s, LFreeze(2, 7), 2);
  }

  /** The caller is Ready: the reply queues it a second time. */
  lemma ReplyToReady(mem: Memory) returns (run: seq<Label>, s: Sched)
    ensures Reaches(mem, run, s) && Inv(s) && Acting(s)
    ensures ReplyTarget(s, s.current) == Some(2) && 2 in s.tasks && s.tasks[2].state == Ready
    ensures !Inv(Reply(s, s.current, 0)) && Queued(Reply(s, s.current, 0).ready)[2] == 2
  {
    var run1, s1 := Served(mem);
    var wait := LFutexWait(0, ReadU32(s1.mem, 0));
    var run2, s2 := ServedThen(mem, wait, FutexWait(0), run1, s1);
    OneWoken(s2);
    ReachesNext(mem, run2, s2, LFutexWake(0, 1));
    run, s := run2 + [LFutexWake(0, 1)], Step(s2, LFutexWake(0, 1));
    ReplyNeedsBlockedCaller(s, 1, 0);
    ReplyPushes(s, 1, 0);
    QueueInvMeans(s.tasks, s.ready, 2);
  }

  lemma OneWoken(s: Sched)
    requires IdInv(s) && Pair(s, Running, Some(2), FutexWait(0), 1)
    ensures Pair(DoFutexWake(s, 0, 1).0, Running, Some(2), Ready, 1)
  {
    var ids := FutexChosen(s, 0, 1);
    FutexChosenSpec(s, 0, 1);
    FutexChosenFirst(s, 0, 1);
    assert s.tasks[2].state == FutexWait(0);
    assert forall k :: 0 <= k < |ids| ==> ids[k] == 2;
    assert ids == [2];
    assert WakeEach(s, ids[..0]) == s;
  }
}
