/** What happens to a blocked task across any step: a sender stays blocked until
    the outcome of its message is logged, and a frozen task stays frozen, except that
    one frozen in Wait is released with the death of the task it waited for. */
module SchedFate {
  import opened ByteData
  import opened Wrappers
  import opened Tasks
  import opened SchedSpec
  import opened SchedSafety
  import opened SchedDeath
  import opened SchedRuns

  /** The outcome of message `mid` was logged between `s` and `s'`. */
  ghost predicate Told(s: Sched, s': Sched, mid: nat) {
    exists i :: |s.log| <= i < |s'.log| && s'.log[i].mid == mid
  }

  /** A task frozen in Wait whose target is gone. */
  ghost predicate Orphaned(t: Task, s': Sched) {
    t.state.Frozen? && t.state.held.Some? && t.state.held.value !in s'.tasks
  }

  ghost predicate Fate(s: Sched, s': Sched, id: nat) {
    id in s.tasks && id in s'.tasks ==>
      var t, t' := s.tasks[id], s'.tasks[id];
      && (t.state.Frozen? ==> (t'.state == t.state && t.pendingMsgs <= t'.pendingMsgs) || Orphaned(t, s'))
      && (t'.state.Frozen? ==> t'.state == t.state)
      && (t.state.Sending? ==> t'.state == t.state || Told(s, s', t.state.mid))
  }

  ghost predicate StillDraining(s: Sched, s': Sched, m: nat) {
    m < |s.place| && m < |s'.place| && s.place[m] == InDrain ==> s'.place[m] == InDrain
  }

  ghost predicate NotReborn(s: Sched, s': Sched, id: nat) {
    id in s'.tasks ==> id in s.tasks || id >= s.nextId
  }

  ghost predicate CareTaken(s: Sched, s': Sched) {
    && s.log <= s'.log && s.accepted <= s'.accepted && |s.place| <= |s'.place| && s.nextId <= s'.nextId
    && (forall m :: StillDraining(s, s', m))
    && (forall id :: NotReborn(s, s', id))
    && (forall id :: Fate(s, s', id))
  }

  // Carried behind a counter, as the invariants are.
  ghost predicate CarefulTo(s: Sched, s': Sched, depth: nat) {
    if depth == 0 then CareTaken(s, s') else CarefulTo(s, s', depth - 1)
  }

  ghost predicate Careful(s: Sched, s': Sched) { CarefulTo(s, s', s.nextId + 3) }

  lemma {:induction false} CarefulToMeans(s: Sched, s': Sched, depth: nat)
    ensures CarefulTo(s, s', depth) <==> CareTaken(s, s')
  {
    if depth > 0 { CarefulToMeans(s, s', depth - 1); }
  }

  lemma CarefulMeans(s: Sched, s': Sched)
    ensures Careful(s, s') <==> CareTaken(s, s')
  {
    CarefulToMeans(s, s', s.nextId + 3);
  }

  lemma FateTrans(s: Sched, s1: Sched, s2: Sched, id: nat)
    requires s.log <= s1.log && s1.log <= s2.log
    requires Fate(s, s1, id) && Fate(s1, s2, id)
    requires id in s.tasks && id in s2.tasks ==> id in s1.tasks
    requires id in s.tasks && Orphaned(s.tasks[id], s1) ==> Orphaned(s.tasks[id], s2)
    ensures Fate(s, s2, id)
  {
    if id in s.tasks && id in s2.tasks && s.tasks[id].state.Sending? {
      var mid := s.tasks[id].state.mid;
      if s1.tasks[id].state != s.tasks[id].state {
        var i :| |s.log| <= i < |s1.log| && s1.log[i].mid == mid;
        assert s2.log[i] == s1.log[i];
      } else if s2.tasks[id].state != s1.tasks[id].state {
        var i :| |s1.log| <= i < |s2.log| && s2.log[i].mid == mid;
        assert |s.log| <= i;
      }
    }
  }

  lemma CarefulTrans(s: Sched, s1: Sched, s2: Sched)
    requires Careful(s, s1) && Careful(s1, s2) && Inv(s)
    ensures Careful(s, s2)
  {
    CarefulMeans(s, s1);
    CarefulMeans(s1, s2);
    CarefulMeans(s, s2);
    WaitsMean(s);
    forall m: nat ensures StillDraining(s, s2, m) { assert StillDraining(s, s1, m) && StillDraining(s1, s2, m); }
    forall id
      ensures NotReborn(s, s2, id) && Fate(s, s2, id)
    {
      assert NotReborn(s, s1, id) && NotReborn(s1, s2, id) && Fate(s, s1, id) && Fate(s1, s2, id);
      if id in s.tasks && Orphaned(s.tasks[id], s1) { assert NotReborn(s1, s2, s.tasks[id].state.held.value); }
      FateTrans(s, s1, s2, id);
    }
  }

  /** One task is left alone, or was in no state that must be left in order. */
  ghost predicate Gentle(t: Task, t': Task) {
    && (t'.state == t.state || (!t.state.Frozen? && !t.state.Sending? && !t'.state.Frozen?))
    && (t.state.Frozen? ==> t.pendingMsgs <= t'.pendingMsgs)
  }

  /** A step that logs nothing and is gentle to every task. */
  lemma GentleCareful(s: Sched, s': Sched)
    requires s.log <= s'.log && s.accepted <= s'.accepted && s.place <= s'.place && s.nextId <= s'.nextId
    requires forall id :: id in s'.tasks ==> id in s.tasks || id >= s.nextId
    requires forall id :: id in s.tasks && id in s'.tasks ==> Gentle(s.tasks[id], s'.tasks[id])
    ensures Careful(s, s')
  {
    CarefulMeans(s, s');
    forall m: nat ensures StillDraining(s, s', m) { if m < |s.place| { assert s'.place[m] == s.place[m]; } }
    forall id ensures Fate(s, s', id) { if id in s.tasks && id in s'.tasks { assert Gentle(s.tasks[id], s'.tasks[id]); } }
  }

  // ---- messages --------------------------------------------------------

  /** Delivering a message nobody holds. */
  lemma HandOverCareful(s: Sched, from: nat, to: nat, data: seq<Byte>, mid: nat)
    requires to in s.tasks && s.tasks[to].state.Recv? && mid < |s.place|
    ensures var s' := HandOver(s, from, to, data, mid);
            && s.log <= s'.log && |s'.log| == |s.log| + 1 && s'.accepted == s.accepted && |s'.place| == |s.place|
            && s'.nextId == s.nextId && s'.tasks.Keys == s.tasks.Keys
            && (forall m: nat :: m < |s.place| && m != mid ==> s'.place[m] == s.place[m])
            && (forall id :: id in s.tasks && id != to ==> s'.tasks[id] == s.tasks[id])
            && s'.tasks[to].state == Ready
  {}

  lemma SendNowCareful(s: Sched, caller: nat, target: nat, ptr: nat, len: nat)
    requires |s.place| == |s.accepted| && target in s.tasks && s.tasks[target].state.Recv?
    ensures Careful(s, Send(s, caller, target, ptr, len).0)
  {
    var s' := Send(s, caller, target, ptr, len).0;
    var s1 := Accept(s, Msg(caller, target, len, false), Gone);
    CarefulMeans(s, s');
    HandOverCareful(s1, caller, target, Bytes(s.mem, ptr, len), |s.accepted|);
    forall m: nat ensures StillDraining(s, s', m) { if m < |s.place| { assert s1.place[m] == s.place[m]; } }
  }

  lemma SendCareful(s: Sched, caller: nat, target: nat, ptr: nat, len: nat)
    requires |s.place| == |s.accepted| && (caller in s.tasks ==> s.tasks[caller].state == Running)
    ensures Careful(s, Send(s, caller, target, ptr, len).0)
  {
    if target in s.tasks && s.tasks[target].state.Recv? {
      SendNowCareful(s, caller, target, ptr, len);
    } else {
      GentleCareful(s, Send(s, caller, target, ptr, len).0);
    }
  }

  lemma TakeFromCareful(s: Sched, caller: nat, buf: nat, len: nat, sender: nat)
    requires Inv(s) && sender in s.tasks && s.tasks[sender].state.Sending?
    ensures Careful(s, TakeFrom(s, caller, buf, len, sender))
  {
    var s' := TakeFrom(s, caller, buf, len, sender);
    CarefulMeans(s, s');
    MessagesMean(s);
    assert SenderHolds(s, sender);
    assert s'.log[|s.log|].mid == s.tasks[sender].state.mid;
    assert Told(s, s', s.tasks[sender].state.mid);
    forall m: nat ensures StillDraining(s, s', m) {}
    forall id ensures Fate(s, s', id) && NotReborn(s, s', id) {}
  }

  lemma ReceiveCareful(s: Sched, mask: nat, buf: nat, len: nat)
    requires Inv(s) && Acting(s)
    ensures Careful(s, Receive(s, s.current, mask, buf, len).0)
    ensures Careful(s, TryReceive(s, s.current, buf, len).0)
  {
    FirstSenderSpec(s, s.current);
    var from := FirstSender(s, s.current);
    if from.Some? { TakeFromCareful(s, s.current, buf, len, from.value); }
    else { GentleCareful(s, s); GentleCareful(s, Receive(s, s.current, mask, buf, len).0); }
  }

  lemma ReceiveUntilCareful(s: Sched, mask: nat, buf: nat, len: nat, d: nat)
    requires Inv(s) && Acting(s)
    ensures Careful(s, ReceiveUntil(s, s.current, mask, buf, len, d).0)
  {
    FirstSenderSpec(s, s.current);
    ReceiveCareful(s, mask, buf, len);
    if FirstSender(s, s.current).None? { GentleCareful(s, ReceiveUntil(s, s.current, mask, buf, len, d).0); }
  }

  lemma SysReceiveCareful(s: Sched, mask: nat, buf: nat, len: nat)
    requires Inv(s) && Acting(s)
    ensures Careful(s, SysReceive(s, s.current, mask, buf, len).0)
  {
    var s', t := SysReceive(s, s.current, mask, buf, len).0, s.tasks[s.current];
    if t.pendingDeaths != [] {
      GentleCareful(s, s');
    } else if t.pendingMsgs != [] {
      CarefulMeans(s, s');
      MessagesMean(s);
      assert QueueHolds(s, s.current) && PendingOk(s, s.current, t.pendingMsgs[0]);
      forall m: nat ensures StillDraining(s, s', m) {}
      forall id ensures Fate(s, s', id) && NotReborn(s, s', id) {}
    } else {
      ReceiveCareful(s, mask, buf, len);
    }
  }

  // ---- death -----------------------------------------------------------

  lemma {:induction false} FailEachCareful(s: Sched, ids: seq<nat>)
    requires Messages(s)
    ensures var s' := FailEach(s, ids);
            && s.log <= s'.log && |s'.place| == |s.place|
            && (forall m :: StillDraining(s, s', m))
            && forall k :: 0 <= k < |ids| && ids[k] in s.tasks && s.tasks[ids[k]].state.Sending? ==>
                             Told(s, s', s.tasks[ids[k]].state.mid)
    decreases |ids|
  {
    if ids != [] {
      var last := |ids| - 1;
      var s1, s' := FailEach(s, ids[..last]), FailEach(s, ids);
      FailEachCareful(s, ids[..last]);
      MessagesMean(s);
      assert SenderHolds(s, ids[last]);
      forall m: nat ensures StillDraining(s, s', m) { assert StillDraining(s, s1, m); }
      forall k | 0 <= k < |ids| && ids[k] in s.tasks && s.tasks[ids[k]].state.Sending?
        ensures Told(s, s', s.tasks[ids[k]].state.mid)
      {
        if k < last {
          assert ids[..last][k] == ids[k];
          var i :| |s.log| <= i < |s1.log| && s1.log[i].mid == s.tasks[ids[k]].state.mid;
          assert s'.log[i] == s1.log[i];
        } else {
          assert s'.log[|s1.log|].mid == s.tasks[ids[k]].state.mid;
        }
      }
    }
  }

  lemma SendersCareful(s: Sched, tid: nat)
    requires IdInv(s) && Messages(s)
    ensures Careful(s, ExitSenders(s, tid))
  {
    var s' := ExitSenders(s, tid);
    CarefulMeans(s, s');
    var ids := Select(s.tasks, s.nextId, SendingTo(tid));
    SendersSelected(s, tid);
    FailEachFrame(s, ids);
    FailEachCareful(s, ids);
    var f := FailEach(s, ids);
    forall m: nat ensures StillDraining(s, s', m) { assert StillDraining(s, f, m); }
    forall id
      ensures Fate(s, s', id) && NotReborn(s, s', id)
    {
      if id in ids {
        var k :| 0 <= k < |ids| && ids[k] == id;
        assert Told(s, f, s.tasks[ids[k]].state.mid);
        var i :| |s.log| <= i < |f.log| && f.log[i].mid == s.tasks[id].state.mid;
        assert s'.log[i] == f.log[i];
      }
    }
  }

  /** Waking waiters touches only tasks that were blocked in Wait, or frozen in it. */
  lemma WaitersCareful(s: Sched, gone: nat, ws: seq<nat>, reason: nat)
    requires WaitersOk(s, gone, ws) && gone !in s.tasks
    ensures Careful(s, ExitWaiters(s, ws, reason))
  {
    var s' := ExitWaiters(s, ws, reason);
    ExitWaitersFrame(s, ws, reason);
    WaitersEndReady(s, ws, reason);
    CarefulMeans(s, s');
    forall m: nat ensures StillDraining(s, s', m) {}
    forall id
      ensures Fate(s, s', id) && NotReborn(s, s', id)
    {
      if id in ws && id in s.tasks {
        var k :| 0 <= k < |ws| && ws[k] == id;
        assert Awaits(s.tasks[ws[k]].state) == Some(gone);
      }
    }
  }

  lemma {:induction false} WaitersEndReady(s: Sched, ws: seq<nat>, reason: nat)
    ensures var s' := ExitWaiters(s, ws, reason);
            forall id :: id in s.tasks && id in s'.tasks ==> s'.tasks[id].state == s.tasks[id].state || s'.tasks[id].state == Ready
    decreases |ws|
  {
    if ws != [] { WaitersEndReady(s, ws[..|ws| - 1], reason); }
  }

  lemma WatchersCareful(s: Sched, tid: nat, reason: nat)
    ensures Careful(s, ExitWatchers(s, tid, reason))
  {
    var s' := ExitWatchers(s, tid, reason);
    var ws := Watchers(s, tid);
    NotifyFrame(s.tasks, ws, tid, reason);
    var woken := NotifyEach(s.tasks, ws, tid, reason).1;
    forall id | id in s.tasks && id in s'.tasks
      ensures Gentle(s.tasks[id], s'.tasks[id])
    {
      if id in woken {
        var k :| 0 <= k < |woken| && woken[k] == id;
        assert s.tasks[woken[k]].state.Recv?;
      }
    }
    GentleCareful(s, s');
  }

  lemma BuryCareful(s: Sched, tid: nat)
    requires Inv(s)
    ensures Careful(s, ExitSenders(ExitRemove(s, tid), tid))
  {
    var s1 := ExitRemove(s, tid);
    GentleCareful(s, s1);
    RemoveBase(s, tid);
    MsgSubKeeps(s, s1);
    SendersCareful(s1, tid);
    CarefulTrans(s, s1, ExitSenders(s1, tid));
  }

  lemma ExitCareful(s: Sched, tid: nat, reason: nat)
    requires Inv(s)
    ensures Careful(s, Exit(s, tid, reason))
  {
    var ws := WaitersOf(s, tid);
    var s2 := ExitSenders(ExitRemove(s, tid), tid);
    var s3 := ExitWaiters(s2, ws, reason);
    BuryCareful(s, tid);
    BuryKeeps(s, tid);
    WaitersCareful(s2, tid, ws, reason);
    WatchersCareful(s3, tid, reason);
    CarefulTrans(s, s2, s3);
    CarefulTrans(s, s3, Exit(s, tid, reason));
  }

  // ---- scheduling ------------------------------------------------------

  lemma KillCareful(s: Sched, tid: nat)
    requires Inv(s)
    ensures Careful(s, Kill(s, tid))
  {
    ExitCareful(s, tid, USIZE_MAX);
    var s1 := Exit(s, tid, USIZE_MAX);
    GentleCareful(s1, Kill(s, tid));
    CarefulTrans(s, s1, Kill(s, tid));
  }

  lemma {:induction false} KillEachCareful(s: Sched, ids: seq<nat>)
    requires Inv(s)
    ensures Careful(s, KillEach(s, ids))
    decreases |ids|
  {
    if ids == [] {
      GentleCareful(s, s);
    } else {
      var s1 := KillEach(s, ids[..|ids| - 1]);
      KillEachCareful(s, ids[..|ids| - 1]);
      KillEachKeeps(s, ids[..|ids| - 1]);
      KillCareful(s1, ids[|ids| - 1]);
      CarefulTrans(s, s1, KillEach(s, ids));
    }
  }

  lemma SweepCareful(s: Sched, now: nat)
    ensures Careful(s, Sweep(s, now))
  {
    var s' := Sweep(s, now);
    var woken := SweepTasks(s.tasks, s.nextId, now, s.netRx).1;
    SweepFrame(s.tasks, s.nextId, now, s.netRx);
    forall id | id in s.tasks && id in s'.tasks
      ensures Gentle(s.tasks[id], s'.tasks[id])
    {
      if id in woken { var k :| 0 <= k < |woken| && woken[k] == id; assert woken[k] in s.tasks; }
    }
    GentleCareful(s, s');
  }

  lemma WatchdogCareful(s: Sched, cid: nat)
    requires Inv(s)
    ensures Careful(s, Exit(s, cid, USIZE_MAX).(current := 0))
  {
    var s2 := Exit(s, cid, USIZE_MAX);
    ExitCareful(s, cid, USIZE_MAX);
    GentleCareful(s2, s2.(current := 0));
    CarefulTrans(s, s2, s2.(current := 0));
  }

  lemma PreemptCareful(s: Sched)
    requires Inv(s)
    ensures Careful(s, Preempt(s))
  {
    var cid := s.current;
    if cid in s.tasks && s.tasks[cid].state == Running && s.tasks[cid].priority >= REAL_TIME
       && SatAdd(s.tasks[cid].runTicks) > WATCHDOG_BUDGET_TICKS {
      OverrunCareful(s, s.(tasks := s.tasks[cid := s.tasks[cid].(runTicks := SatAdd(s.tasks[cid].runTicks))]), cid);
    } else {
      GentleCareful(s, Preempt(s));
    }
  }

  lemma OverrunCareful(s: Sched, s1: Sched, cid: nat)
    requires Inv(s) && cid in s.tasks && exists n :: s1 == s.(tasks := s.tasks[cid := s.tasks[cid].(runTicks := n)])
    ensures Careful(s, Exit(s1, cid, USIZE_MAX).(current := 0))
  {
    CosmeticKeeps(s, s1);
    GentleCareful(s, s1);
    WatchdogCareful(s1, cid);
    CarefulTrans(s, s1, Exit(s1, cid, USIZE_MAX).(current := 0));
  }

  lemma DispatchCareful(s: Sched)
    requires Inv(s) && NothingRuns(s)
    ensures Careful(s, Dispatch(s))
  {
    DispatchBase(s);
    GentleCareful(s, Dispatch(s));
  }

  lemma PickLocalCareful(s: Sched)
    requires Inv(s)
    ensures Careful(s, PickNextLocal(s))
  {
    PreemptCareful(s);
    PreemptKeeps(s);
    DispatchCareful(Preempt(s));
    CarefulTrans(s, Preempt(s), PickNextLocal(s));
  }

  lemma SweepAllCareful(s: Sched, now: nat)
    requires Inv(s)
    ensures Inv(KillHung(Sweep(s, now), now)) && Careful(s, KillHung(Sweep(s, now), now))
  {
    var s1 := Sweep(s, now);
    SweepKeeps(s, now);
    SweepCareful(s, now);
    KillEachKeeps(s1, Select(s1.tasks, s1.nextId, HeartbeatDue(now)));
    KillEachCareful(s1, Select(s1.tasks, s1.nextId, HeartbeatDue(now)));
    CarefulTrans(s, s1, KillHung(s1, now));
  }

  lemma SweptCareful(s: Sched, now: nat)
    requires Inv(s)
    ensures Careful(s, Swept(s, now))
  {
    var s0 := if now > s.lastSweep then s.(lastSweep := now) else s;
    GentleCareful(s, s0);
    if now > s.lastSweep || s.netRx {
      CosmeticKeeps(s, s0);
      SweepAllCareful(s0, now);
      CarefulTrans(s, s0, Swept(s, now));
    }
  }

  lemma PickNextCareful(s: Sched, now: nat)
    requires Inv(s)
    ensures Careful(s, PickNext(s, now))
  {
    SweptKeeps(s, now);
    SweptCareful(s, now);
    PickLocalCareful(Swept(s, now));
    CarefulTrans(s, Swept(s, now), PickNext(s, now));
  }

  lemma FutexWakeCareful(s: Sched, addr: nat, count: nat)
    ensures Careful(s, DoFutexWake(s, addr, count).0)
  {
    var ids := FutexChosen(s, addr, count);
    FutexChosenSpec(s, addr, count);
    WakeEachGentle(s, ids, addr);
    GentleCareful(s, WakeEach(s, ids));
  }

  lemma {:induction false} WakeEachGentle(s: Sched, ids: seq<nat>, addr: nat)
    requires forall k :: 0 <= k < |ids| ==> ids[k] in s.tasks && s.tasks[ids[k]].state == FutexWait(addr)
    ensures var s' := WakeEach(s, ids);
            && s'.log == s.log && s'.accepted == s.accepted && s'.place == s.place && s'.nextId == s.nextId
            && s'.tasks.Keys == s.tasks.Keys
            && forall id :: id in s.tasks ==> Gentle(s.tasks[id], s'.tasks[id])
    decreases |ids|
  {
    if ids != [] { WakeEachGentle(s, ids[..|ids| - 1], addr); }
  }

  // ---- every step ------------------------------------------------------

  /** The reply, if there is one, goes to nobody who is frozen or blocked sending. */
  predicate ReplySpares(s: Sched, caller: nat) {
    var target := ReplyTarget(s, caller);
    target.Some? && target.value in s.tasks ==>
      !s.tasks[target.value].state.Frozen? && !s.tasks[target.value].state.Sending?
  }

  /** A reply is careful if and only if it spares frozen tasks and blocked senders. */
  lemma ReplyCareful(s: Sched, caller: nat, result: nat)
    requires Inv(s)
    ensures Careful(s, Reply(s, caller, result)) <==> ReplySpares(s, caller)
  {
    var s', target := Reply(s, caller, result), ReplyTarget(s, caller);
    ReplyFrame(s, caller, result);
    if ReplySpares(s, caller) { GentleCareful(s, s'); } else { ReadyUnasked(s, s', target.value); }
  }

  /** A frozen task or a blocked sender made Ready with nothing logged and nobody dead. */
  lemma ReadyUnasked(s: Sched, s': Sched, id: nat)
    requires Waits(s) && id in s.tasks && (s.tasks[id].state.Frozen? || s.tasks[id].state.Sending?)
    requires s'.tasks.Keys == s.tasks.Keys && s'.log == s.log && s'.tasks[id].state == Ready
    ensures !Careful(s, s')
  {
    CarefulMeans(s, s');
    WaitsMean(s);
    assert !Fate(s, s', id);
  }

  /** A step that is not the hot-swap freezing or unfreezing someone, nor a reply that
      runs over a frozen task or a blocked sender. */
  predicate Ordinary(s: Sched, l: Label) {
    !l.LFreeze? && !l.LUnfreeze? && (l.LReply? ==> ReplySpares(s, s.current))
  }

  lemma MessageStepCareful(s: Sched, l: Label)
    requires Inv(s) && Acting(s)
    requires Messaging(l)
    ensures Careful(s, Step(s, l))
  {
    match l
    case LSend(target, ptr, len) => SendCareful(s, s.current, target, ptr, len);
    case LRecv(mask, buf, len) => SysReceiveCareful(s, mask, buf, len);
    case LRecvUntil(mask, buf, len, d) => ReceiveUntilCareful(s, mask, buf, len, d);
    case LTryRecv(buf, len) => ReceiveCareful(s, 0, buf, len);
  }

  lemma ParkCareful(s: Sched, st: TaskState)
    requires Inv(s) && Acting(s) && !st.Frozen?
    ensures Careful(s, Park(s, s.current, st))
  {
    GentleCareful(s, Park(s, s.current, st));
  }

  lemma WaitCareful(s: Sched, pid: nat)
    requires Inv(s) && Acting(s)
    ensures Careful(s, DoWait(s, s.current, pid).0)
  {
    GentleCareful(s, DoWait(s, s.current, pid).0);
  }

  lemma SimpleStepCareful(s: Sched, l: Label)
    requires Inv(s) && Acting(s)
    requires l.LFutexWait? || l.LWait? || l.LSleep?
    ensures Careful(s, Step(s, l))
  {
    match l
    case LFutexWait(addr, val) => GentleCareful(s, s); ParkCareful(s, FutexWait(addr));
    case LWait(pid) => WaitCareful(s, pid);
    case LSleep(until) => ParkCareful(s, Sleeping(until));
  }

  lemma EventCareful(s: Sched, wantNet: bool, d: Option<nat>)
    requires Acting(s) && |s.place| == |s.accepted|
    ensures Careful(s, Step(s, LWaitEvent(wantNet, d)))
  {
    GentleCareful(s, DoWaitEvent(s, s.current, wantNet, d).0);
  }

  lemma NotifyCareful(s: Sched, watched: nat)
    requires |s.place| == |s.accepted|
    ensures Careful(s, Step(s, LNotifyOnExit(watched)))
  {
    GentleCareful(s, NotifyOnExit(s, s.current, watched));
  }

  lemma HeartbeatCareful(s: Sched, d: Option<nat>)
    requires |s.place| == |s.accepted|
    ensures Careful(s, Step(s, LHeartbeat(d)))
  {
    GentleCareful(s, SetHeartbeat(s, s.current, d));
  }

  lemma AmbientCareful(s: Sched, l: Label)
    requires Inv(s) && Enabled(s, l) && Ambient(l)
    ensures Careful(s, Step(s, l))
  {
    if l.LKernelSend? { SendCareful(s, 0, l.target, l.ptr, l.len); }
    else { GentleCareful(s, Step(s, l)); }
  }

  lemma SchedulingCareful(s: Sched, l: Label)
    requires Inv(s) && Scheduling(l)
    ensures Careful(s, Step(s, l))
  {
    match l
    case LExit(tid, reason) => ExitCareful(s, tid, reason);
    case LPickNext(now) => PickNextCareful(s, now);
  }

  lemma CallCareful(s: Sched, l: Label)
    requires Inv(s) && Acting(s) && !Ambient(l) && !Scheduling(l) && !Switching(l)
    ensures Careful(s, Step(s, l))
  {
    if Messaging(l) { MessageStepCareful(s, l); }
    else if l.LFutexWake? { FutexWakeCareful(s, l.addr, l.count); }
    else if l.LFutexWait? || l.LWait? || l.LSleep? { SimpleStepCareful(s, l); }
    else if l.LWaitEvent? { EventCareful(s, l.wantNet, l.due); }
    else if l.LNotifyOnExit? { NotifyCareful(s, l.watched); }
    else { HeartbeatCareful(s, l.d); }
  }

  /** Every ordinary step treats blocked tasks with care. */
  lemma StepCareful(s: Sched, l: Label)
    requires Inv(s) && Enabled(s, l) && Ordinary(s, l)
    ensures Careful(s, Step(s, l))
  {
    if Ambient(l) { AmbientCareful(s, l); }
    else if Scheduling(l) { SchedulingCareful(s, l); }
    else if l.LReply? { ReplyCareful(s, s.current, l.result); }
    else { CallCareful(s, l); }
  }

  lemma StepFate(s: Sched, l: Label, id: nat)
    requires Inv(s) && Enabled(s, l) && Ordinary(s, l)
    ensures Fate(s, Step(s, l), id)
  {
    StepCareful(s, l);
    CarefulMeans(s, Step(s, l));
  }

  /** The step takes a blocked sender out of its send without looking at it. */
  predicate Overrides(s: Sched, l: Label, id: nat) {
    (l.LFreeze? && l.tid == id) || (l.LReply? && ReplyTarget(s, s.current) == Some(id))
  }

  /** A freeze, a thaw or a reply changes the state of its own target only. */
  lemma SwitchFrame(s: Sched, l: Label, id: nat)
    requires |s.place| == |s.accepted| && Switching(l) && id in s.tasks
    ensures var s' := Step(s, l);
            && id in s'.tasks && s'.log == s.log && s'.tasks[id].pendingMsgs == s.tasks[id].pendingMsgs
            && (l.LFreeze? ==> s'.tasks[id].state == if l.tid == id then Frozen(l.swapId, Awaits(s.tasks[id].state)) else s.tasks[id].state)
            && (l.LUnfreeze? ==>
                  s'.tasks[id].state == if l.tid == id && s.tasks[id].state.Frozen? then Ready else s.tasks[id].state)
            && (l.LReply? ==> s'.tasks[id].state == if Overrides(s, l, id) then Ready else s.tasks[id].state)
  {
    if l.LReply? { ReplyFrame(s, s.current, l.result); }
  }

  /** An accepted message is silently lost, its live sender released with no outcome
      logged, if and only if the step freezes that sender or replies to it. */
  lemma NoSilentLoss(s: Sched, l: Label, id: nat)
    requires Inv(s) && Enabled(s, l) && id in s.tasks && s.tasks[id].state.Sending?
    ensures var s' := Step(s, l);
            id in s'.tasks && s'.tasks[id].state != s.tasks[id].state && !Told(s, s', s.tasks[id].state.mid)
            <==> Overrides(s, l, id)
  {
    if Switching(l) {
      SwitchFrame(s, l, id);
    } else {
      StepFate(s, l, id);
    }
  }

  /** Nobody dies, and the hart keeps its current task. */
  ghost predicate AllLive(s: Sched, s': Sched) {
    s.tasks.Keys <= s'.tasks.Keys && s'.current == s.current && s'.zombies == s.zombies
  }

  lemma SendKillsNobody(s: Sched, caller: nat, target: nat, ptr: nat, len: nat)
    requires |s.place| == |s.accepted|
    ensures AllLive(s, Send(s, caller, target, ptr, len).0)
  {}

  lemma ReceiveKillsNobody(s: Sched, caller: nat, mask: nat, buf: nat, len: nat)
    ensures AllLive(s, Receive(s, caller, mask, buf, len).0) && AllLive(s, TryReceive(s, caller, buf, len).0)
  {}

  lemma SysReceiveKillsNobody(s: Sched, caller: nat, mask: nat, buf: nat, len: nat)
    ensures AllLive(s, SysReceive(s, caller, mask, buf, len).0)
  {
    ReceiveKillsNobody(s, caller, mask, buf, len);
  }

  lemma ReceiveUntilKillsNobody(s: Sched, caller: nat, mask: nat, buf: nat, len: nat, d: nat)
    ensures AllLive(s, ReceiveUntil(s, caller, mask, buf, len, d).0)
  {
    ReceiveKillsNobody(s, caller, mask, buf, len);
  }

  lemma MessagesKillNobody(s: Sched, l: Label)
    requires |s.place| == |s.accepted| && Messaging(l)
    ensures AllLive(s, Step(s, l))
  {
    match l
    case LSend(target, ptr, len) => SendKillsNobody(s, s.current, target, ptr, len);
    case LRecv(mask, buf, len) => SysReceiveKillsNobody(s, s.current, mask, buf, len);
    case LRecvUntil(mask, buf, len, d) => ReceiveUntilKillsNobody(s, s.current, mask, buf, len, d);
    case LTryRecv(buf, len) => ReceiveKillsNobody(s, s.current, 0, buf, len);
  }

  lemma {:induction false} WakeEachKillsNobody(s: Sched, ids: seq<nat>)
    ensures AllLive(s, WakeEach(s, ids))
    decreases |ids|
  {
    if ids != [] { WakeEachKillsNobody(s, ids[..|ids| - 1]); }
  }

  lemma CallsKillNobody(s: Sched, l: Label)
    requires |s.place| == |s.accepted| && !Scheduling(l) && !Messaging(l) && !l.LKernelSend? && !l.LReap?
    ensures AllLive(s, Step(s, l))
  {
    if l.LFutexWake? { WakeEachKillsNobody(s, FutexChosen(s, l.addr, l.count)); }
  }

  /** Tasks die in exits and in the kills of the scheduler, nowhere else. */
  lemma NobodyDies(s: Sched, l: Label)
    requires |s.place| == |s.accepted| && !Scheduling(l)
    ensures s.tasks.Keys <= Step(s, l).tasks.Keys && Step(s, l).current == s.current
    ensures !l.LReap? ==> AllLive(s, Step(s, l))
  {
    if l.LKernelSend? { SendKillsNobody(s, 0, l.target, l.ptr, l.len); }
    else if Messaging(l) { MessagesKillNobody(s, l); }
    else if !l.LReap? { CallsKillNobody(s, l); }
  }

  /** The step makes a frozen task Ready. */
  predicate Thaws(s: Sched, l: Label, id: nat) {
    (l.LUnfreeze? && l.tid == id) || (l.LReply? && ReplyTarget(s, s.current) == Some(id))
  }

  // ---- queues of frozen tasks ------------------------------------------

  /** Nobody's message queue changes. */
  ghost predicate SamePending(s: Sched, s': Sched) {
    s'.tasks.Keys <= s.tasks.Keys && forall id :: id in s'.tasks ==> s'.tasks[id].pendingMsgs == s.tasks[id].pendingMsgs
  }

  lemma {:induction false} WaitersPending(s: Sched, ws: seq<nat>, reason: nat)
    ensures SamePending(s, ExitWaiters(s, ws, reason))
    decreases |ws|
  {
    if ws != [] { WaitersPending(s, ws[..|ws| - 1], reason); }
  }

  lemma ExitPending(s: Sched, tid: nat, reason: nat)
    ensures SamePending(s, Exit(s, tid, reason))
  {
    var s2, ws := ExitSenders(ExitRemove(s, tid), tid), WaitersOf(s, tid);
    var s3 := ExitWaiters(s2, ws, reason);
    WaitersPending(s2, ws, reason);
    NotifyFrame(s3.tasks, Watchers(s3, tid), tid, reason);
  }

  lemma {:induction false} KillEachPending(s: Sched, ids: seq<nat>)
    ensures SamePending(s, KillEach(s, ids))
    decreases |ids|
  {
    if ids != [] {
      KillEachPending(s, ids[..|ids| - 1]);
      ExitPending(KillEach(s, ids[..|ids| - 1]), ids[|ids| - 1], USIZE_MAX);
    }
  }

  lemma PreemptPending(s: Sched)
    ensures SamePending(s, Preempt(s))
  {
    var cid := s.current;
    if cid in s.tasks && s.tasks[cid].state == Running && s.tasks[cid].priority >= REAL_TIME
       && SatAdd(s.tasks[cid].runTicks) > WATCHDOG_BUDGET_TICKS {
      var s1 := s.(tasks := s.tasks[cid := s.tasks[cid].(runTicks := SatAdd(s.tasks[cid].runTicks))]);
      assert SamePending(s, s1);
      ExitPending(s1, cid, USIZE_MAX);
    }
  }

  lemma PickLocalPending(s: Sched)
    requires Inv(s)
    ensures SamePending(s, PickNextLocal(s))
  {
    PreemptKeeps(s);
    PreemptPending(s);
    DispatchBase(Preempt(s));
    DispatchQuiet(Preempt(s));
  }

  lemma SchedulingPending(s: Sched, l: Label)
    requires Inv(s) && Scheduling(l)
    ensures SamePending(s, Step(s, l))
  {
    match l
    case LExit(tid, reason) => ExitStepPending(s, tid, reason);
    case LPickNext(now) => PickStepPending(s, now);
  }

  lemma ExitStepPending(s: Sched, tid: nat, reason: nat)
    requires |s.place| == |s.accepted|
    ensures SamePending(s, Step(s, LExit(tid, reason)))
  {
    ExitPending(s, tid, reason);
  }

  lemma PickStepPending(s: Sched, now: nat)
    requires Inv(s)
    ensures SamePending(s, Step(s, LPickNext(now)))
  {
    SweptKeeps(s, now);
    SweptPending(s, now);
    PickLocalPending(Swept(s, now));
  }

  lemma SweptPending(s: Sched, now: nat)
    ensures SamePending(s, Swept(s, now))
  {
    var s0 := if now > s.lastSweep then s.(lastSweep := now) else s;
    SweepFrame(s0.tasks, s0.nextId, now, s0.netRx);
    var s1 := Sweep(s0, now);
    KillEachPending(s1, Select(s1.tasks, s1.nextId, HeartbeatDue(now)));
  }

  // ---- frozen tasks ----------------------------------------------------

  /** What a frozen task waited for is alive: it is on that task's list. */
  lemma HeldByTheLiving(s: Sched, id: nat)
    requires Inv(s) && id in s.tasks
    ensures !Orphaned(s.tasks[id], s)
  {
    WaitsMean(s);
  }

  lemma SwitchOfFrozen(s: Sched, l: Label, id: nat)
    requires Inv(s) && Switching(l) && id in s.tasks && s.tasks[id].state.Frozen?
    ensures var s' := Step(s, l);
            && id in s'.tasks && !Orphaned(s.tasks[id], s') && s'.tasks[id].pendingMsgs == s.tasks[id].pendingMsgs
            && (s'.tasks[id].state.Frozen? <==> !Thaws(s, l, id))
  {
    HeldByTheLiving(s, id);
    NobodyDies(s, l);
    SwitchFrame(s, l, id);
  }

  lemma OrdinaryOfFrozen(s: Sched, l: Label, id: nat)
    requires Inv(s) && Enabled(s, l) && !Switching(l) && id in s.tasks && s.tasks[id].state.Frozen?
    requires id in Step(s, l).tasks
    ensures var s' := Step(s, l);
            && (s'.tasks[id].state.Frozen? <==> !Orphaned(s.tasks[id], s'))
            && (!Orphaned(s.tasks[id], s') ==> s.tasks[id].pendingMsgs <= s'.tasks[id].pendingMsgs)
  {
    StepFate(s, l, id);
    StepKeeps(s, l);
    FateOfFrozen(s, Step(s, l), id);
  }

  lemma FateOfFrozen(s: Sched, s': Sched, id: nat)
    requires Inv(s') && Fate(s, s', id) && id in s.tasks && s.tasks[id].state.Frozen? && id in s'.tasks
    ensures s'.tasks[id].state.Frozen? <==> !Orphaned(s.tasks[id], s')
    ensures !Orphaned(s.tasks[id], s') ==> s.tasks[id].pendingMsgs <= s'.tasks[id].pendingMsgs
  {
    HeldByTheLiving(s', id);
  }

  /** A live frozen task stops being frozen if and only if it is unfrozen or replied to,
      or was frozen in Wait and the task it waited for is gone. What is queued for it
      stays queued in order. */
  lemma FrozenStays(s: Sched, l: Label, id: nat)
    requires Inv(s) && Enabled(s, l) && id in s.tasks && s.tasks[id].state.Frozen?
    ensures var s' := Step(s, l);
            id in s'.tasks ==>
              && (s'.tasks[id].state.Frozen? <==> !Thaws(s, l, id) && !Orphaned(s.tasks[id], s'))
              && s.tasks[id].pendingMsgs <= s'.tasks[id].pendingMsgs
  {
    if Switching(l) {
      SwitchOfFrozen(s, l, id);
    } else if id in Step(s, l).tasks {
      OrdinaryOfFrozen(s, l, id);
      if Scheduling(l) {
        SchedulingPending(s, l);
      } else {
        NobodyDies(s, l);
        HeldByTheLiving(s, id);
      }
    }
  }

  /** The death of `pid` wakes a frozen task exactly when it is listed as a waiter. */
  lemma ExitMeetsFrozen(f: Sched, tid: nat, pid: nat, reason: nat)
    requires tid in f.tasks && pid != tid && f.tasks[tid].state.Frozen?
    ensures var s' := Exit(f, pid, reason);
            tid in s'.tasks && s'.tasks[tid].state == if tid in WaitersOf(f, pid) then Ready else f.tasks[tid].state
  {
    BuryLeavesFrozen(f, tid, pid);
    var s2, ws := ExitSenders(ExitRemove(f, pid), pid), WaitersOf(f, pid);
    ExitWaitersFrame(s2, ws, reason);
    var s3 := ExitWaiters(s2, ws, reason);
    if tid in ws { ListedAreReady(s2, ws, reason, tid); }
    WatchersLeaveOthers(s3, tid, pid, reason);
  }

  lemma BuryLeavesFrozen(f: Sched, tid: nat, pid: nat)
    requires tid in f.tasks && pid != tid && f.tasks[tid].state.Frozen?
    ensures var s2 := ExitSenders(ExitRemove(f, pid), pid); tid in s2.tasks && s2.tasks[tid].state == f.tasks[tid].state
  {
    var s1 := ExitRemove(f, pid);
    FailEachFrame(s1, Select(s1.tasks, s1.nextId, SendingTo(pid)));
  }

  lemma WatchersLeaveOthers(s: Sched, tid: nat, pid: nat, reason: nat)
    requires tid in s.tasks && !s.tasks[tid].state.Recv?
    ensures var s' := ExitWatchers(s, pid, reason); tid in s'.tasks && s'.tasks[tid].state == s.tasks[tid].state
  {
    NotifyFrame(s.tasks, Watchers(s, pid), pid, reason);
  }

  lemma {:induction false} ListedAreReady(s: Sched, ws: seq<nat>, reason: nat, w: nat)
    requires w in s.tasks && w in ws
    ensures var s' := ExitWaiters(s, ws, reason); w in s'.tasks && s'.tasks[w].state == Ready
    decreases |ws|
  {
    var last := |ws| - 1;
    ExitWaitersFrame(s, ws[..last], reason);
    if ws[last] != w { ListedAreReady(s, ws[..last], reason, w); }
  }

  /** A task frozen in Wait is Ready, and queued once, when the task it waits for dies. */
  lemma ExitReleases(s: Sched, tid: nat, pid: nat, reason: nat)
    requires Inv(s) && tid in s.tasks && s.tasks[tid].state.Frozen? && s.tasks[tid].state.held == Some(pid) && pid != tid
    ensures var s' := Exit(s, pid, reason); tid in s'.tasks && s'.tasks[tid].state == Ready && Queued(s'.ready)[tid] == 1
  {
    var s' := Exit(s, pid, reason);
    ListedAsWaiter(s, tid, pid);
    ExitMeetsFrozen(s, tid, pid, reason);
    ExitKeeps(s, pid, reason);
    ReadyIsQueued(s', tid);
  }

  lemma ListedAsWaiter(s: Sched, tid: nat, pid: nat)
    requires Waits(s) && tid in s.tasks && Awaits(s.tasks[tid].state) == Some(pid)
    ensures tid in WaitersOf(s, pid)
  {
    WaitsMean(s);
  }
}
